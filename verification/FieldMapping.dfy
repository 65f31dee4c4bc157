/** The engine's field mapping: documents edited in key order, refining the moves on unordered trees. */
module FieldMappings {
  import opened Options
  import opened Decimals
  import opened Json
  import opened Differences
  import opened Indices
  import opened Trees
  import opened FieldMoves
  import opened Agreement
  import P = Pointer

  // ----- documents as dictionaries in insertion order -----

  function ChildOf(v: Json, part: string): Option<Json>
  {
    match v
    case Arr(items) =>
      var i := Select(part, |items|);
      if i.Some? && i.value < |items| then Some(items[i.value]) else None
    case Obj(_, fields) => if part in fields then Some(fields[part]) else None
    case _ => None
  }

  function WithChild(v: Json, part: string, c: Json): Json
  {
    match v
    case Arr(items) =>
      var i := Select(part, |items|);
      if i.Some? && i.value < |items| then Arr(items[i.value := c]) else v
    case Obj(order, fields) => if part in fields then Obj(order, fields[part := c]) else v
    case _ => v
  }

  function Without(keys: seq<string>, k: string): seq<string>
  {
    if keys == [] then []
    else (if keys[0] == k then [] else [keys[0]]) + Without(keys[1..], k)
  }

  function FieldAt(v: Json, p: Path): Option<Json>
    decreases |p|
  {
    if |p| == 1 then (if v.Obj? && p[0] in v.fields then Some(v.fields[p[0]]) else None)
    else match ChildOf(v, p[0]) case None => None case Some(c) => FieldAt(c, p[1..])
  }

  predicate ParentAt(v: Json, p: Path)
    decreases |p|
  {
    if |p| == 1 then v.Obj?
    else match ChildOf(v, p[0]) case None => false case Some(c) => ParentAt(c, p[1..])
  }

  /** `parent.pop(key)`, or `parent[key] = value`, at a path. */
  function SetField(v: Json, p: Path, x: Option<Json>): Json
    decreases |p|
  {
    if |p| == 1 then
      if !v.Obj? then v
      else
        match x
        case None => Obj(Without(v.order, p[0]), v.fields - {p[0]})
        case Some(t) =>
          Obj(if p[0] in v.fields then v.order else v.order + [p[0]], v.fields[p[0] := t])
    else match ChildOf(v, p[0]) case None => v case Some(c) => WithChild(v, p[0], SetField(c, p[1..], x))
  }

  function MapOne(v: Json, m: Move): Option<Json>
  {
    var x := FieldAt(v, m.source);
    if x.None? then (if FieldAt(v, m.target).Some? then None else Some(v))
    else if !ParentAt(v, m.target) || FieldAt(v, m.target).Some? then None
    else Some(SetField(SetField(v, m.source, None), m.target, x))
  }

  /** The mappings from the given position on, with the rules they report. */
  function MapFrom(v: Json, ms: seq<Move>, i: nat, applied: set<Rule>): Option<(Json, set<Rule>)>
    requires i <= |ms|
    decreases |ms| - i
  {
    if i == |ms| then Some((v, applied))
    else
      match MapOne(v, ms[i])
      case None => None
      case Some(w) => MapFrom(w, ms, i + 1, if FieldAt(v, ms[i].source).Some? then applied + {Mapped(i)} else applied)
  }

  // ----- the policy's mapping rules -----

  ghost predicate PathsDecode(ms: seq<FieldMapping>)
  {
    forall m :: m in ms ==> Decodes(m.v1Path) && Decodes(m.v2Path)
  }

  /** The path is a pointer with at least one token. */
  predicate Decodes(path: string)
  {
    P.Decode(path).Some? && P.Decode(path).value != []
  }

  function MoveOf(m: FieldMapping): Move
    requires Decodes(m.v1Path) && Decodes(m.v2Path)
  {
    Move(P.Decode(m.v2Path).value, P.Decode(m.v1Path).value)
  }

  function MovesOf(ms: seq<FieldMapping>): (r: seq<Move>)
    requires PathsDecode(ms)
    ensures |r| == |ms| && forall i :: 0 <= i < |ms| ==> r[i] == MoveOf(ms[i])
  {
    seq(|ms|, i requires 0 <= i < |ms| => MoveOf(ms[i]))
  }

  /** The opposite moves, read off the mappings: each v1 path renamed to its v2 path. */
  function Renames(ms: seq<FieldMapping>): (r: seq<Move>)
    requires PathsDecode(ms)
    ensures |r| == |ms|
    ensures forall i :: 0 <= i < |ms| ==> r[i] == Move(P.Decode(ms[i].v1Path).value, P.Decode(ms[i].v2Path).value)
  {
    seq(|ms|, i requires 0 <= i < |ms| => Move(P.Decode(ms[i].v1Path).value, P.Decode(ms[i].v2Path).value))
  }

  /** The paths of all mappings, each v1 path before its v2 path. */
  function MappingPaths(ms: seq<FieldMapping>): (r: seq<string>)
    ensures |r| == 2 * |ms|
    ensures forall i :: 0 <= i < |ms| ==> r[2 * i] == ms[i].v1Path && r[2 * i + 1] == ms[i].v2Path
  {
    seq(2 * |ms|, i requires 0 <= i < 2 * |ms| => if i % 2 == 0 then ms[i / 2].v1Path else ms[i / 2].v2Path)
  }

  predicate TextOverlap(a: string, b: string)
  {
    a == b || b + "/" <= a || a + "/" <= b
  }

  ghost predicate NoOverlap(paths: seq<string>)
  {
    forall i, j :: 0 <= i < j < |paths| ==> !TextOverlap(paths[i], paths[j])
  }

  /** The nested loop of the policy's overlap check. */
  method CheckOverlap(paths: seq<string>) returns (ok: bool)
    ensures ok <==> NoOverlap(paths)
  {
    for i := 0 to |paths|
      invariant forall a, b :: 0 <= a < i && a < b < |paths| ==> !TextOverlap(paths[a], paths[b])
    {
      for j := i + 1 to |paths|
        invariant forall b :: i < b < j ==> !TextOverlap(paths[i], paths[b])
      {
        if paths[i] == paths[j] || paths[j] + "/" <= paths[i] || paths[i] + "/" <= paths[j] {
          return false;
        }
      }
    }
    return true;
  }

  /** Two pointers overlap as text exactly when one key path is a prefix of the other. */
  lemma OverlapIsPrefix(a: string, b: string)
    requires Decodes(a) && Decodes(b)
    ensures TextOverlap(a, b) <==> !Apart(P.Decode(a).value, P.Decode(b).value)
  {
    hide P.Encode, P.Decode;
    var x, y := P.Decode(a).value, P.Decode(b).value;
    P.EncodeDecode(a);
    P.EncodeDecode(b);
    P.PrefixIsKeyPrefix(x, y);
    P.PrefixIsKeyPrefix(y, x);
    if a == b {
      assert x == y && x <= y;
    }
    if x <= y && |x| == |y| {
      assert x == y;
    }
  }

  /** The policy's check accepts exactly the prefix-free mappings. */
  lemma OverlapCheckIsPrefixFreeness(ms: seq<FieldMapping>)
    requires PathsDecode(ms)
    ensures NoOverlap(MappingPaths(ms)) <==> PrefixFree(MovesOf(ms))
  {
    hide P.Decode, TextOverlap, Apart;
    var paths, moves := MappingPaths(ms), MovesOf(ms);
    forall i | 0 <= i < |ms| ensures Decodes(ms[i].v1Path) && Decodes(ms[i].v2Path) {
      assert ms[i] in ms;
    }
    forall i, j | 0 <= i < |ms| && 0 <= j < |ms|
      ensures TextOverlap(paths[2 * i], paths[2 * j]) <==> !Apart(moves[i].target, moves[j].target)
      ensures TextOverlap(paths[2 * i], paths[2 * j + 1]) <==> !Apart(moves[i].target, moves[j].source)
      ensures TextOverlap(paths[2 * i + 1], paths[2 * j]) <==> !Apart(moves[i].source, moves[j].target)
      ensures TextOverlap(paths[2 * i + 1], paths[2 * j + 1]) <==> !Apart(moves[i].source, moves[j].source)
    {
      OverlapIsPrefix(ms[i].v1Path, ms[j].v1Path);
      OverlapIsPrefix(ms[i].v1Path, ms[j].v2Path);
      OverlapIsPrefix(ms[i].v2Path, ms[j].v1Path);
      OverlapIsPrefix(ms[i].v2Path, ms[j].v2Path);
    }
    OverlapIsSymmetric();
    if NoOverlap(paths) {
      forall a, b | 0 <= a < |paths| && 0 <= b < |paths| && a != b ensures !TextOverlap(paths[a], paths[b]) {
        assert a < b || b < a;
      }
      assert PrefixFree(moves);
    }
    if PrefixFree(moves) {
      forall a, b | 0 <= a < b < |paths| ensures !TextOverlap(paths[a], paths[b]) {
        var i, j := a / 2, b / 2;
        assert a == 2 * i || a == 2 * i + 1;
        assert b == 2 * j || b == 2 * j + 1;
        if i == j {
          assert Apart(moves[i].source, moves[i].target);
        } else {
          assert MoveApart(moves[i], moves[j]);
        }
      }
    }
  }

  lemma OverlapIsSymmetric()
    ensures forall a, b :: TextOverlap(a, b) <==> TextOverlap(b, a)
  {
  }

  // ----- the documents refine the trees -----

  ghost function EraseOption(x: Option<Json>): Option<Tree>
  {
    match x case None => None case Some(j) => Some(Erase(j))
  }

  lemma EraseStep(v: Json, part: string, c: Json)
    ensures Step(Erase(v), part) == EraseOption(ChildOf(v, part))
    ensures Erase(WithChild(v, part, c)) == WithStep(Erase(v), part, Erase(c))
    ensures v.Obj? <==> Erase(v).Dict?
  {
    if v.Obj? && part in v.fields {
      assert Erase(WithChild(v, part, c)).fields == WithStep(Erase(v), part, Erase(c)).fields;
    } else if v.Arr? {
      var i := Select(part, |v.items|);
      if i.Some? && i.value < |v.items| {
        assert Erase(WithChild(v, part, c)).items == WithStep(Erase(v), part, Erase(c)).items;
      }
    }
  }

  lemma {:induction false} EraseField(v: Json, p: Path)
    ensures Get(Erase(v), p) == EraseOption(FieldAt(v, p)) && HasDict(Erase(v), p) == ParentAt(v, p)
    decreases |p|
  {
    EraseStep(v, p[0], v);
    if |p| > 1 && ChildOf(v, p[0]).Some? {
      EraseField(ChildOf(v, p[0]).value, p[1..]);
    }
  }

  lemma {:induction false} EraseSetField(v: Json, p: Path, x: Option<Json>)
    ensures Erase(SetField(v, p, x)) == Write(Erase(v), p, EraseOption(x))
    decreases |p|
  {
    EraseStep(v, p[0], v);
    if |p| > 1 {
      if ChildOf(v, p[0]).Some? {
        var c := ChildOf(v, p[0]).value;
        EraseSetField(c, p[1..], x);
        EraseStep(v, p[0], SetField(c, p[1..], x));
      }
    } else if v.Obj? {
      assert Erase(SetField(v, p, x)).fields == Write(Erase(v), p, EraseOption(x)).fields;
    }
  }

  lemma EraseMapOne(v: Json, m: Move)
    ensures EraseOption(MapOne(v, m)) == MoveOne(Erase(v), m)
  {
    hide Erase, Get, HasDict, Write, FieldAt, ParentAt, SetField;
    EraseField(v, m.source);
    EraseField(v, m.target);
    EraseSetField(v, m.source, None);
    EraseSetField(SetField(v, m.source, None), m.target, FieldAt(v, m.source));
  }

  /** Mapping a document is moving fields of its tree: key order plays no part in it. */
  lemma {:induction false} MapFromIsMoveAll(v: Json, ms: seq<Move>, i: nat, applied: set<Rule>)
    requires i <= |ms|
    ensures
      var r := MapFrom(v, ms, i, applied);
      MoveAll(Erase(v), ms[i..]) == EraseOption(match r case None => None case Some(pair) => Some(pair.0))
    decreases |ms| - i
  {
    hide MapOne, MoveOne, Erase;
    if i < |ms| {
      EraseMapOne(v, ms[i]);
      assert ms[i..][1..] == ms[i + 1..];
      match MapOne(v, ms[i])
      case None =>
      case Some(w) =>
        MapFromIsMoveAll(w, ms, i + 1, if FieldAt(v, ms[i].source).Some? then applied + {Mapped(i)} else applied);
    }
  }

  // ----- mapping keeps a document comparable -----

  lemma {:induction false} WithoutKeeps(keys: seq<string>, k: string)
    requires NoDuplicates(keys)
    ensures NoDuplicates(Without(keys, k))
    ensures forall x :: x in Without(keys, k) <==> x in keys && x != k
  {
    if keys != [] {
      WithoutKeeps(keys[1..], k);
      assert keys[0] !in keys[1..];
    }
  }

  lemma {:induction false} FieldIsComparable(p: Policy, v: Json, path: Path)
    requires Comparable(p, v) && FieldAt(v, path).Some?
    ensures Comparable(p, FieldAt(v, path).value)
    decreases |path|
  {
    if |path| > 1 {
      FieldIsComparable(p, ChildOf(v, path[0]).value, path[1..]);
    }
  }

  lemma {:induction false} SetFieldIsComparable(p: Policy, v: Json, path: Path, x: Option<Json>)
    requires Comparable(p, v) && (x.Some? ==> Comparable(p, x.value))
    ensures Comparable(p, SetField(v, path, x))
    decreases |path|
  {
    if |path| > 1 {
      if ChildOf(v, path[0]).Some? {
        SetFieldIsComparable(p, ChildOf(v, path[0]).value, path[1..], x);
      }
    } else if v.Obj? {
      WithoutKeeps(v.order, path[0]);
    }
  }

  lemma {:induction false} MapFromIsComparable(p: Policy, v: Json, ms: seq<Move>, i: nat, applied: set<Rule>)
    requires i <= |ms| && Comparable(p, v) && MapFrom(v, ms, i, applied).Some?
    ensures Comparable(p, MapFrom(v, ms, i, applied).value.0)
    decreases |ms| - i
  {
    hide Comparable, FieldAt, ParentAt, SetField;
    if i < |ms| {
      var m, x := ms[i], FieldAt(v, ms[i].source);
      var w := MapOne(v, m).value;
      if x.Some? {
        FieldIsComparable(p, v, m.source);
        SetFieldIsComparable(p, v, m.source, None);
        SetFieldIsComparable(p, SetField(v, m.source, None), m.target, x);
      }
      MapFromIsComparable(p, w, ms, i + 1, if x.Some? then applied + {Mapped(i)} else applied);
    }
  }

  // ----- what the comparison promises about renamed fields -----

  /**
   If v2's document is v1's document with every v1 path renamed to its v2 path, in any key order,
   then mapping succeeds and the mapped document agrees with v1's: with the rules and without them.
   */
  lemma RenamedDocumentsAgree(p: Policy, v1: Json, v2: Json, applied: set<Rule>)
    requires PathsDecode(p.mappings) && NoOverlap(MappingPaths(p.mappings))
    requires MoveAll(Erase(v1), Renames(p.mappings)) == Some(Erase(v2))
    ensures
      var r := MapFrom(v2, MovesOf(p.mappings), 0, applied);
      && r.Some?
      && Same(v1, r.value.0)
      && Agree(p, true, "", v1, r.value.0) && Agree(p, false, "", v1, r.value.0)
  {
    hide MoveAll, MapFrom, Erase, Agree, PrefixFree, NoOverlap;
    var ms := MovesOf(p.mappings);
    OverlapCheckIsPrefixFreeness(p.mappings);
    RenamesAreSwaps(p.mappings);
    SwapAllPrefixFree(ms);
    MovesCanBeUndone(Erase(v1), SwapAll(ms));
    SwapTwice(ms);
    MapFromIsMoveAll(v2, ms, 0, applied);
    assert ms[0..] == ms;
    var w := MapFrom(v2, ms, 0, applied).value.0;
    EraseEqualIsSame(v1, w);
    SameIsReflexive(v1);
    RawAgreementIsSame(p, "", v1, v1);
    AgreeReflexive(p, true, "", v1);
    AgreeReflexive(p, false, "", v1);
    AgreementRespectsSame(p, true, "", v1, v1, w);
    AgreementRespectsSame(p, false, "", v1, v1, w);
  }

  lemma RenamesAreSwaps(ms: seq<FieldMapping>)
    requires PathsDecode(ms)
    ensures Renames(ms) == SwapAll(MovesOf(ms))
  {
  }

  // ----- what the mappings do to a document, path by path -----

  /** The value at the path of a mapping, as the tree that it is. */
  ghost function ValueAt(v: Json, path: string): Option<Tree>
    requires Decodes(path)
  {
    EraseOption(FieldAt(v, P.Decode(path).value))
  }

  /** The mapping has nowhere to put its field, or something is already there. */
  ghost predicate Conflicts(v: Json, m: FieldMapping)
    requires Decodes(m.v1Path) && Decodes(m.v2Path)
  {
    || ValueAt(v, m.v1Path).Some?
    || (ValueAt(v, m.v2Path).Some? && !ParentAt(v, P.Decode(m.v1Path).value))
  }

  /** The keys neither lead to, through nor past a mapped field. */
  ghost predicate ApartFromAll(ms: seq<FieldMapping>, q: Path)
    requires PathsDecode(ms)
  {
    forall i :: 0 <= i < |ms| ==> Apart(P.Decode(ms[i].v1Path).value, q) && Apart(P.Decode(ms[i].v2Path).value, q)
  }

  lemma ConflictIs(v: Json, m: FieldMapping)
    requires Decodes(m.v1Path) && Decodes(m.v2Path)
    ensures Conflicts(v, m) <==> MoveOne(Erase(v), MoveOf(m)).None?
    ensures ValueAt(v, m.v1Path) == Get(Erase(v), MoveOf(m).target)
    ensures ValueAt(v, m.v2Path) == Get(Erase(v), MoveOf(m).source)
  {
    hide Erase, Get, HasDict, Write, FieldAt, ParentAt, P.Decode;
    EraseField(v, P.Decode(m.v1Path).value);
    EraseField(v, P.Decode(m.v2Path).value);
  }

  /**
   What mapping a document does, said on the mappings' own paths: it fails exactly when some mapping
   conflicts in the document as it came; otherwise the value at each v2 path is afterwards at its v1 path
   and nothing is at the v2 path, and every field apart from the mapped ones is as it was.
   */
  lemma MappingMovesFields(v2: Json, ms: seq<FieldMapping>, applied: set<Rule>)
    requires PathsDecode(ms) && NoOverlap(MappingPaths(ms))
    ensures
      var r := MapFrom(v2, MovesOf(ms), 0, applied);
      && (r.None? <==> exists i :: 0 <= i < |ms| && Conflicts(v2, ms[i]))
      && (r.Some? ==>
            && (forall i :: 0 <= i < |ms| ==>
                  && ValueAt(r.value.0, ms[i].v1Path) == ValueAt(v2, ms[i].v2Path)
                  && ValueAt(r.value.0, ms[i].v2Path) == None)
            && (forall q: Path :: ApartFromAll(ms, q) ==>
                  EraseOption(FieldAt(r.value.0, q)) == EraseOption(FieldAt(v2, q))))
  {
    hide MoveAll, MapFrom, Erase, PrefixFree, NoOverlap, P.Decode, MoveOne, Conflicts, ValueAt, Apart, Decodes;
    var moves := MovesOf(ms);
    OverlapCheckIsPrefixFreeness(ms);
    MapFromIsMoveAll(v2, moves, 0, applied);
    assert moves[0..] == moves;
    ConflictsAreFound(Erase(v2), moves);
    forall i | 0 <= i < |ms| ensures Conflicts(v2, ms[i]) <==> MoveOne(Erase(v2), moves[i]).None? {
      DecodesAt(ms, i);
      ConflictIs(v2, ms[i]);
    }
    var r := MapFrom(v2, moves, 0, applied);
    if r.Some? {
      var w := r.value.0;
      MovesAreMade(Erase(v2), moves);
      forall i | 0 <= i < |ms|
        ensures ValueAt(w, ms[i].v1Path) == ValueAt(v2, ms[i].v2Path) && ValueAt(w, ms[i].v2Path) == None
      {
        DecodesAt(ms, i);
        ConflictIs(v2, ms[i]);
        ConflictIs(w, ms[i]);
      }
      forall q: Path | ApartFromAll(ms, q) ensures EraseOption(FieldAt(w, q)) == EraseOption(FieldAt(v2, q)) {
        EraseField(v2, q);
        EraseField(w, q);
        forall i | 0 <= i < |moves| ensures Apart(moves[i].source, q) && Apart(moves[i].target, q) {
          DecodesAt(ms, i);
        }
        OthersStay(Erase(v2), moves, q);
      }
    }
  }

  lemma DecodesAt(ms: seq<FieldMapping>, i: nat)
    requires PathsDecode(ms) && i < |ms|
    ensures Decodes(ms[i].v1Path) && Decodes(ms[i].v2Path)
    ensures MovesOf(ms)[i] == Move(P.Decode(ms[i].v2Path).value, P.Decode(ms[i].v1Path).value)
  {
    assert ms[i] in ms;
  }

  /** The rules of the moves, from the given one on, that find a value to move. */
  ghost function Finding(v: Tree, ms: seq<Move>, n: nat): set<Rule>
  {
    set i: nat | n <= i < |ms| && Get(v, ms[i].source).Some? :: Mapped(i)
  }

  lemma FindingNext(v: Tree, ms: seq<Move>, n: nat)
    requires n < |ms|
    ensures Finding(v, ms, n) == Finding(v, ms, n + 1) + if Get(v, ms[n].source).Some? then {Mapped(n)} else {}
  {
    hide Get;
  }

  lemma SameFinding(v: Tree, w: Tree, ms: seq<Move>, n: nat)
    requires forall i :: n <= i < |ms| ==> Get(v, ms[i].source) == Get(w, ms[i].source)
    ensures Finding(v, ms, n) == Finding(w, ms, n)
  {
    hide Get;
  }

  lemma NothingFound(v: Tree, ms: seq<Move>)
    ensures Finding(v, ms, |ms|) == {}
  {
  }

  lemma {:induction false} RulesOfMoves(v: Json, ms: seq<Move>, n: nat, applied: set<Rule>)
    requires PrefixFree(ms) && n <= |ms| && MapFrom(v, ms, n, applied).Some?
    ensures MapFrom(v, ms, n, applied).value.1 == applied + Finding(Erase(v), ms, n)
    decreases |ms| - n
  {
    hide MapOne, MoveOne, Erase, Get, FieldAt, Finding, PrefixFree, Apart;
    if n == |ms| {
      NothingFound(Erase(v), ms);
    } else {
      var m := ms[n];
      EraseField(v, m.source);
      EraseMapOne(v, m);
      var w := MapOne(v, m).value;
      RulesOfMoves(w, ms, n + 1, if FieldAt(v, m.source).Some? then applied + {Mapped(n)} else applied);
      FindingNext(Erase(v), ms, n);
      forall i | n + 1 <= i < |ms| ensures Get(Erase(v), ms[i].source) == Get(Erase(w), ms[i].source) {
        ApartMoves(ms, n, i);
        MoveElsewhere(Erase(v), m, ms[i].source);
      }
      SameFinding(Erase(v), Erase(w), ms, n + 1);
    }
  }

  lemma ApartMoves(moves: seq<Move>, i: nat, j: nat)
    requires PrefixFree(moves) && i < j < |moves|
    ensures Apart(moves[i].source, moves[j].source) && Apart(moves[i].target, moves[j].source)
  {
    assert MoveApart(moves[i], moves[j]);
  }

  /** A mapping is reported as applied exactly when its v2 path has a value. */
  lemma MappingsAreReported(v2: Json, ms: seq<FieldMapping>, applied: set<Rule>, rule: Rule)
    requires PathsDecode(ms) && NoOverlap(MappingPaths(ms)) && MapFrom(v2, MovesOf(ms), 0, applied).Some?
    ensures rule in MapFrom(v2, MovesOf(ms), 0, applied).value.1 <==>
              rule in applied || exists i: nat :: i < |ms| && rule == Mapped(i) && ValueAt(v2, ms[i].v2Path).Some?
  {
    hide MapFrom, Erase, PrefixFree, NoOverlap, P.Decode, ValueAt, Decodes, Get;
    OverlapCheckIsPrefixFreeness(ms);
    RulesOfMoves(v2, MovesOf(ms), 0, applied);
    forall i: nat | i < |ms| ensures ValueAt(v2, ms[i].v2Path) == Get(Erase(v2), MovesOf(ms)[i].source) {
      DecodesAt(ms, i);
      ConflictIs(v2, ms[i]);
    }
  }

  lemma SwapTwice(ms: seq<Move>)
    ensures SwapAll(SwapAll(ms)) == ms
  {
  }

  lemma {:induction false} AgreeReflexive(p: Policy, rules: bool, path: string, a: Json)
    ensures Agree(p, rules, path, a, a)
    decreases a
  {
    hide Decimals.Value;
    if a.Arr? {
      forall i | 0 <= i < |a.items| ensures Agree(p, rules, P.Child(path, NatText(i)), a.items[i], a.items[i]) {
        AgreeReflexive(p, rules, P.Child(path, NatText(i)), a.items[i]);
      }
    } else if a.Obj? {
      forall k | k in a.fields ensures Agree(p, rules, P.Child(path, k), a.fields[k], a.fields[k]) {
        AgreeReflexive(p, rules, P.Child(path, k), a.fields[k]);
      }
    }
  }

  // ----- the loops of the engine -----

  /** `_mapping_parent`: the dictionary that holds the last key of a path, if there is one. */
  method MappingParent(value: Json, parts: Path) returns (parent: Option<Json>)
    ensures parent.Some? <==> ParentAt(value, parts)
    ensures parent.Some? ==> parent.value.Obj?
    ensures FieldAt(value, parts)
            == (if parent.Some? then FieldAt(parent.value, [parts[|parts| - 1]]) else None)
  {
    var current := value;
    var n := |parts| - 1;
    for i := 0 to n
      invariant ParentAt(current, parts[i..]) == ParentAt(value, parts)
      invariant FieldAt(current, parts[i..]) == FieldAt(value, parts)
    {
      assert parts[i..][1..] == parts[i + 1..];
      var next := ChildOf(current, parts[i]);
      if next.None? {
        return None;
      }
      current := next.value;
    }
    assert parts[n..] == [parts[n]];
    return if current.Obj? then Some(current) else None;
  }

  /** `_map_fields`: apply the mappings in turn; None is a conflict. */
  method MapFields(value: Json, ms: seq<Move>, applied: set<Rule>) returns (mapped: Option<(Json, set<Rule>)>)
    ensures mapped == MapFrom(value, ms, 0, applied)
  {
    hide ParentAt;
    var current, rules := value, applied;
    for i := 0 to |ms|
      invariant MapFrom(current, ms, i, rules) == MapFrom(value, ms, 0, applied)
    {
      var source, target := ms[i].source, ms[i].target;
      var sourceParent := MappingParent(current, source);
      var targetParent := MappingParent(current, target);
      var moved := FieldAt(current, source);
      if sourceParent.None? || source[|source| - 1] !in sourceParent.value.fields {
        if targetParent.Some? && target[|target| - 1] in targetParent.value.fields {
          return None;
        }
      } else {
        if targetParent.None? || target[|target| - 1] in targetParent.value.fields {
          return None;
        }
        current := SetField(SetField(current, source, None), target, moved);
        rules := rules + {Mapped(i)};
      }
    }
    return Some((current, rules));
  }
}
