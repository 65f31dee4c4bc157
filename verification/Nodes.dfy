/** The node limit of a parsed document: an explicit stack against the recursive size. */
module Nodes {
  import opened Json
  import opened Totals

  ghost function SizeOfSeq(sizes: seq<nat>): nat
  {
    if sizes == [] then 0 else SizeOfSeq(sizes[..|sizes| - 1]) + sizes[|sizes| - 1]
  }

  /** The number of values in a document, itself included. */
  ghost function Size(j: Json): nat
  {
    match j
    case Arr(items) => 1 + SizeOfSeq(seq(|items|, i requires 0 <= i < |items| => Size(items[i])))
    case Obj(_, fields) => 1 + Sum(map k | k in fields :: Size(fields[k]))
    case _ => 1
  }

  ghost function Sizes(xs: seq<Json>): (sizes: seq<nat>)
    ensures |sizes| == |xs| && forall i :: 0 <= i < |xs| ==> sizes[i] == Size(xs[i])
  {
    seq(|xs|, i requires 0 <= i < |xs| => Size(xs[i]))
  }

  ghost function FieldSizes(fields: map<string, Json>): (m: map<string, nat>)
    ensures m.Keys == fields.Keys && forall k :: k in fields ==> m[k] == Size(fields[k])
  {
    map k | k in fields :: Size(fields[k])
  }

  lemma SizeOfArray(items: seq<Json>)
    ensures Size(Arr(items)) == 1 + SizeOfSeq(Sizes(items))
  {
    assert seq(|items|, i requires 0 <= i < |items| => Size(items[i])) == Sizes(items);
  }

  lemma SizeOfObject(order: seq<string>, fields: map<string, Json>)
    ensures Size(Obj(order, fields)) == 1 + Sum(FieldSizes(fields))
  {
    assert (map k | k in fields :: Size(fields[k])) == FieldSizes(fields);
  }

  lemma {:induction false} SizeOfAppend(a: seq<nat>, b: seq<nat>)
    ensures SizeOfSeq(a + b) == SizeOfSeq(a) + SizeOfSeq(b)
  {
    if b == [] {
      assert a + b == a;
    } else {
      assert (a + b)[..|a + b| - 1] == a + b[..|b| - 1];
      SizeOfAppend(a, b[..|b| - 1]);
    }
  }

  lemma SizesAppend(a: seq<Json>, b: seq<Json>)
    ensures Sizes(a + b) == Sizes(a) + Sizes(b)
  {
  }

  /** The values of a dictionary, in the order of its keys. */
  function Values(order: seq<string>, fields: map<string, Json>): (values: seq<Json>)
    requires forall k :: k in order ==> k in fields
    ensures |values| == |order| && forall i :: 0 <= i < |order| ==> values[i] == fields[order[i]]
  {
    seq(|order|, i requires 0 <= i < |order| => fields[order[i]])
  }

  lemma {:induction false} SizeOfValues(order: seq<string>, fields: map<string, Json>)
    requires NoDuplicates(order) && forall k :: k in order <==> k in fields
    ensures SizeOfSeq(Sizes(Values(order, fields))) == Sum(FieldSizes(fields))
    decreases |order|
  {
    hide Size, Sizes, SizeOfSeq, Sum, Values;
    if order == [] {
      assert fields == map[];
      NothingToSize(fields);
    } else {
      var n := |order| - 1;
      var rest := fields - {order[n]};
      LastKey(order, fields);
      SizeOfValues(order[..n], rest);
      SumRemove(FieldSizes(fields), order[n]);
      assert FieldSizes(fields) - {order[n]} == FieldSizes(rest);
      Popped(Values(order[..n], rest), fields[order[n]]);
    }
  }

  lemma NothingToSize(fields: map<string, Json>)
    requires fields == map[]
    ensures SizeOfSeq(Sizes(Values([], fields))) == Sum(FieldSizes(fields))
  {
    assert FieldSizes(fields) == map[];
    assert Sizes(Values([], fields)) == [];
  }

  lemma LastKey(order: seq<string>, fields: map<string, Json>)
    requires order != [] && NoDuplicates(order) && forall k :: k in order <==> k in fields
    ensures
      var n := |order| - 1;
      && NoDuplicates(order[..n]) && (forall k :: k in order[..n] <==> k in fields - {order[n]})
      && Values(order, fields) == Values(order[..n], fields - {order[n]}) + [fields[order[n]]]
  {
    var n := |order| - 1;
    assert order == order[..n] + [order[n]];
    assert forall i :: 0 <= i < n ==> order[..n][i] == order[i];
    assert order[n] !in order[..n];
  }

  lemma OneSize(n: nat)
    ensures SizeOfSeq([n]) == n
  {
    assert [n][..0] == [];
    assert SizeOfSeq([n][..0]) == 0;
  }

  /** The values pushed for a popped one. */
  function Inside(j: Json): seq<Json>
    requires WellFormed(j)
  {
    match j
    case Arr(items) => items
    case Obj(order, fields) => Values(order, fields)
    case _ => []
  }

  lemma SizeUnfolds(j: Json)
    requires WellFormed(j)
    ensures Size(j) == 1 + SizeOfSeq(Sizes(Inside(j)))
    ensures forall x :: x in Inside(j) ==> WellFormed(x)
  {
    match j
    case Arr(items) => SizeOfArray(items);
    case Obj(order, fields) =>
      SizeOfObject(order, fields);
      SizeOfValues(order, fields);
    case _ => assert Sizes(Inside(j)) == [];
  }

  lemma Popped(stack: seq<Json>, x: Json)
    ensures SizeOfSeq(Sizes(stack + [x])) == SizeOfSeq(Sizes(stack)) + Size(x)
  {
    SizesAppend(stack, [x]);
    assert Sizes([x]) == [Size(x)];
    SizeOfAppend(Sizes(stack), [Size(x)]);
    OneSize(Size(x));
  }

  lemma Pushed(stack: seq<Json>, xs: seq<Json>)
    ensures SizeOfSeq(Sizes(stack + xs)) == SizeOfSeq(Sizes(stack)) + SizeOfSeq(Sizes(xs))
  {
    SizesAppend(stack, xs);
    SizeOfAppend(Sizes(stack), Sizes(xs));
  }

  /**
   The explicit-stack count stops early exactly when the document has more nodes than the limit, and
   it always ends; false stands for the node limit's error.
   */
  method CountNodes(result: Json, maxNodes: nat) returns (ok: bool)
    requires WellFormed(result)
    ensures ok <==> Size(result) <= maxNodes
  {
    hide Size, SizeOfSeq, WellFormed, Inside;
    var pending := [result];
    var nodes := 0;
    Popped([], result);
    assert [] + [result] == [result];
    NothingPending();
    while pending != []
      invariant nodes + SizeOfSeq(Sizes(pending)) == Size(result) && nodes <= maxNodes
      invariant forall x :: x in pending ==> WellFormed(x)
      decreases SizeOfSeq(Sizes(pending))
    {
      var current := pending[|pending| - 1];
      var rest := pending[..|pending| - 1];
      assert pending == rest + [current];
      Popped(rest, current);
      SizeUnfolds(current);
      Pushed(rest, Inside(current));
      pending := rest;
      nodes := nodes + 1;
      if nodes > maxNodes {
        return false;
      }
      pending := pending + Inside(current);
    }
    return true;
  }

  lemma NothingPending()
    ensures Sizes([]) == [] && SizeOfSeq([]) == 0
  {
  }
}
