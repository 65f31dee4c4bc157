/** Parsed JSON documents, with objects as Python dictionaries: keys in insertion order. */
module Json {
  import opened Decimals

  datatype Json =
    | Null
    | Bool(b: bool)
    | Num(dec: Dec)
    | Str(text: string)
    | Arr(items: seq<Json>)
    | Obj(order: seq<string>, fields: map<string, Json>)

  predicate NoDuplicates(keys: seq<string>)
  {
    forall i, j :: 0 <= i < j < |keys| ==> keys[i] != keys[j]
  }

  /** Every object's key order lists exactly its keys. */
  ghost predicate WellFormed(j: Json)
  {
    match j
    case Arr(items) => forall i :: 0 <= i < |items| ==> WellFormed(items[i])
    case Obj(order, fields) =>
      && NoDuplicates(order)
      && (forall k :: k in order <==> k in fields)
      && (forall k :: k in fields ==> WellFormed(fields[k]))
    case _ => true
  }

  /** Every number is within the policy's limits, as the parser checks. */
  ghost predicate NumbersWithin(j: Json, l: NumberLimits)
  {
    match j
    case Num(dec) => WithinLimits(dec, l)
    case Arr(items) => forall i :: 0 <= i < |items| ==> NumbersWithin(items[i], l)
    case Obj(order, fields) => forall k :: k in fields ==> NumbersWithin(fields[k], l)
    case _ => true
  }

  /** The same JSON value: keys in any order, numbers by their value. */
  ghost predicate Same(a: Json, b: Json)
  {
    match (a, b)
    case (Null, Null) => true
    case (Bool(x), Bool(y)) => x == y
    case (Num(x), Num(y)) => NumEq(x, y)
    case (Str(x), Str(y)) => x == y
    case (Arr(x), Arr(y)) => |x| == |y| && forall i :: 0 <= i < |x| ==> Same(x[i], y[i])
    case (Obj(_, x), Obj(_, y)) => x.Keys == y.Keys && forall k :: k in x ==> Same(x[k], y[k])
    case _ => false
  }

  lemma {:induction false} SameIsReflexive(a: Json)
    ensures Same(a, a)
  {
    match a
    case Arr(items) =>
      forall i | 0 <= i < |items| ensures Same(items[i], items[i]) {
        SameIsReflexive(items[i]);
      }
    case Obj(_, fields) =>
      forall k | k in fields ensures Same(fields[k], fields[k]) {
        SameIsReflexive(fields[k]);
      }
    case _ =>
  }
}
