/** JSON values without key order, with one operation that reads, adds or removes a field at a path. */
module Trees {
  import opened Options
  import opened Json
  import opened Indices

  datatype Tree = Leaf(value: Json) | List(items: seq<Tree>) | Dict(fields: map<string, Tree>)

  type Path = p: seq<string> | p != [] witness [""]

  /** A document without its key orders. */
  ghost function Erase(j: Json): Tree
  {
    match j
    case Arr(items) => List(seq(|items|, i requires 0 <= i < |items| => Erase(items[i])))
    case Obj(_, fields) => Dict(map k | k in fields :: Erase(fields[k]))
    case _ => Leaf(j)
  }

  lemma {:induction false} EraseEqualIsSame(a: Json, b: Json)
    requires Erase(a) == Erase(b)
    ensures Same(a, b)
  {
    match a
    case Arr(items) =>
      assert b.Arr? && |items| == |b.items| by { assert |Erase(a).items| == |Erase(b).items|; }
      forall i | 0 <= i < |items| ensures Same(items[i], b.items[i]) {
        assert Erase(a).items[i] == Erase(b).items[i];
        EraseEqualIsSame(items[i], b.items[i]);
      }
    case Obj(_, fields) =>
      assert Erase(a).fields.Keys == fields.Keys && Erase(b).fields.Keys == b.fields.Keys;
      forall k | k in fields ensures Same(fields[k], b.fields[k]) {
        assert Erase(a).fields[k] == Erase(b).fields[k];
        EraseEqualIsSame(fields[k], b.fields[k]);
      }
    case _ =>
      assert a == b;
      SameIsReflexive(a);
  }

  // ----- reading and writing a field -----

  /** The child that a token selects. */
  function Step(v: Tree, part: string): Option<Tree>
  {
    match v
    case Leaf(_) => None
    case List(items) =>
      var i := Select(part, |items|);
      if i.Some? && i.value < |items| then Some(items[i.value]) else None
    case Dict(fields) => if part in fields then Some(fields[part]) else None
  }

  /** Replaces the child that a token selects. */
  function WithStep(v: Tree, part: string, c: Tree): Tree
  {
    match v
    case Leaf(_) => v
    case List(items) =>
      var i := Select(part, |items|);
      if i.Some? && i.value < |items| then List(items[i.value := c]) else v
    case Dict(fields) => if part in fields then Dict(fields[part := c]) else v
  }

  /** The field at a path: its parent is a dictionary that has the last key. */
  function Get(v: Tree, p: Path): Option<Tree>
    decreases |p|
  {
    if |p| == 1 then (if v.Dict? && p[0] in v.fields then Some(v.fields[p[0]]) else None)
    else match Step(v, p[0]) case None => None case Some(c) => Get(c, p[1..])
  }

  /** The parent of a path is a dictionary. */
  predicate HasDict(v: Tree, p: Path)
    decreases |p|
  {
    if |p| == 1 then v.Dict?
    else match Step(v, p[0]) case None => false case Some(c) => HasDict(c, p[1..])
  }

  /** Sets the field at a path, or removes it; nothing happens where the parent is not a dictionary. */
  function Write(v: Tree, p: Path, x: Option<Tree>): Tree
    decreases |p|
  {
    if |p| == 1 then
      if !v.Dict? then v
      else match x case None => Dict(v.fields - {p[0]}) case Some(t) => Dict(v.fields[p[0] := t])
    else match Step(v, p[0]) case None => v case Some(c) => WithStep(v, p[0], Write(c, p[1..], x))
  }

  predicate Apart(p: Path, q: Path)
  {
    !(p <= q) && !(q <= p)
  }

  // ----- the laws of reading and writing -----

  lemma StepWithStep(v: Tree, a: string, b: string, c: Tree)
    requires Step(v, a).Some?
    ensures Step(WithStep(v, a, c), b) == if a == b then Some(c) else Step(v, b)
    ensures WithStep(v, a, c).Dict? == v.Dict?
  {
    if v.List? && Step(v, b).Some? && Select(a, |v.items|) == Select(b, |v.items|) {
      SelectIsInjective(a, b, |v.items|);
    }
  }

  lemma WithStepTwice(v: Tree, a: string, b: string, c: Tree, d: Tree)
    requires Step(v, a).Some? && Step(v, b).Some? && a != b
    ensures WithStep(WithStep(v, a, c), b, d) == WithStep(WithStep(v, b, d), a, c)
  {
    if v.List? {
      if Select(a, |v.items|) == Select(b, |v.items|) {
        SelectIsInjective(a, b, |v.items|);
      }
    }
  }

  lemma WithStepAgain(v: Tree, a: string, c: Tree, d: Tree)
    requires Step(v, a).Some?
    ensures WithStep(WithStep(v, a, c), a, d) == WithStep(v, a, d)
  {
  }

  lemma WithStepSame(v: Tree, a: string)
    requires Step(v, a).Some?
    ensures WithStep(v, a, Step(v, a).value) == v
  {
  }

  /** Writing a field makes it readable, and keeps its parent a dictionary. */
  lemma {:induction false} ReadBack(v: Tree, p: Path, x: Option<Tree>)
    requires HasDict(v, p)
    ensures Get(Write(v, p, x), p) == x && HasDict(Write(v, p, x), p)
    decreases |p|
  {
    if |p| > 1 {
      var c := Step(v, p[0]).value;
      ReadBack(c, p[1..], x);
      StepWithStep(v, p[0], p[0], Write(c, p[1..], x));
    }
  }

  /** Writing a field changes no field apart from it. */
  lemma {:induction false} ReadElsewhere(v: Tree, p: Path, x: Option<Tree>, q: Path)
    requires Apart(p, q)
    ensures Get(Write(v, p, x), q) == Get(v, q) && HasDict(Write(v, p, x), q) == HasDict(v, q)
    decreases |p|
  {
    if |p| == 1 {
      if |q| > 1 && v.Dict? {
        assert p[0] != q[0] by { assert p == [p[0]] && q[..1] == [q[0]]; }
      } else if v.Dict? {
        assert p[0] != q[0] by { assert p == [p[0]] && q == [q[0]]; }
      }
    } else if Step(v, p[0]).Some? {
      var c := Step(v, p[0]).value;
      var c' := Write(c, p[1..], x);
      StepWithStep(v, p[0], q[0], c');
      if |q| == 1 {
        assert p[0] != q[0] by { assert q == [q[0]] && p[..1] == [p[0]]; }
      } else if p[0] == q[0] {
        ApartTails(p, q);
        ReadElsewhere(c, p[1..], x, q[1..]);
      }
    }
  }

  lemma ApartTails(p: Path, q: Path)
    requires Apart(p, q) && p[0] == q[0] && |p| > 1 && |q| > 1
    ensures Apart(p[1..], q[1..])
  {
    assert p == [p[0]] + p[1..] && q == [q[0]] + q[1..];
  }

  /** Two writes apart from each other can be made in either order. */
  lemma {:induction false} WritesCommute(v: Tree, p: Path, x: Option<Tree>, q: Path, y: Option<Tree>)
    requires Apart(p, q)
    ensures Write(Write(v, p, x), q, y) == Write(Write(v, q, y), p, x)
    decreases |p|
  {
    if |p| == 1 && |q| == 1 {
      assert p[0] != q[0] by { assert p == [p[0]] && q == [q[0]]; }
    } else if |p| == 1 {
      assert p[0] != q[0] by { assert p == [p[0]] && q[..1] == [q[0]]; }
    } else if |q| == 1 {
      assert p[0] != q[0] by { assert q == [q[0]] && p[..1] == [p[0]]; }
      CommuteOne(v, p, x, q, y);
    } else if Step(v, p[0]).Some? && Step(v, q[0]).Some? {
      var c, d := Step(v, p[0]).value, Step(v, q[0]).value;
      var c', d' := Write(c, p[1..], x), Write(d, q[1..], y);
      StepWithStep(v, p[0], q[0], c');
      StepWithStep(v, q[0], p[0], d');
      if p[0] == q[0] {
        ApartTails(p, q);
        WritesCommute(c, p[1..], x, q[1..], y);
        WithStepAgain(v, p[0], c', Write(c', q[1..], y));
        WithStepAgain(v, p[0], d', Write(d', p[1..], x));
      } else {
        WithStepTwice(v, p[0], q[0], c', d');
      }
    } else if Step(v, p[0]).Some? {
      StepWithStep(v, p[0], q[0], Write(Step(v, p[0]).value, p[1..], x));
    } else if Step(v, q[0]).Some? {
      StepWithStep(v, q[0], p[0], Write(Step(v, q[0]).value, q[1..], y));
    }
  }

  lemma CommuteOne(v: Tree, p: Path, x: Option<Tree>, q: Path, y: Option<Tree>)
    requires |p| > 1 && |q| == 1 && p[0] != q[0]
    ensures Write(Write(v, p, x), q, y) == Write(Write(v, q, y), p, x)
  {
    if v.Dict? && p[0] in v.fields {
      var c' := Write(v.fields[p[0]], p[1..], x);
      match y
      case None => assert v.fields[p[0] := c'] - {q[0]} == (v.fields - {q[0]})[p[0] := c'];
      case Some(t) => assert v.fields[p[0] := c'][q[0] := t] == v.fields[q[0] := t][p[0] := c'];
    }
  }

  /** A second write to the same field replaces the first. */
  lemma {:induction false} WriteAgain(v: Tree, p: Path, x: Option<Tree>, y: Option<Tree>)
    ensures Write(Write(v, p, x), p, y) == Write(v, p, y)
    decreases |p|
  {
    if |p| > 1 && Step(v, p[0]).Some? {
      var c := Step(v, p[0]).value;
      WriteAgain(c, p[1..], x, y);
      StepWithStep(v, p[0], p[0], Write(c, p[1..], x));
      WithStepAgain(v, p[0], Write(c, p[1..], x), Write(c, p[1..], y));
    }
  }

  /** Writing back what is there changes nothing. */
  lemma {:induction false} WriteSame(v: Tree, p: Path)
    ensures Write(v, p, Get(v, p)) == v
    decreases |p|
  {
    if |p| == 1 {
      if v.Dict? && p[0] !in v.fields {
        assert v.fields - {p[0]} == v.fields;
      }
    } else if Step(v, p[0]).Some? {
      WriteSame(Step(v, p[0]).value, p[1..]);
      WithStepSame(v, p[0]);
    }
  }

  lemma {:induction false} GetHasDict(v: Tree, p: Path)
    requires Get(v, p).Some?
    ensures HasDict(v, p)
    decreases |p|
  {
    if |p| > 1 {
      GetHasDict(Step(v, p[0]).value, p[1..]);
    }
  }
}
