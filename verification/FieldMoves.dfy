/** The algebra of field moves: their order does not matter, and they can be undone. */
module FieldMoves {
  import opened Options
  import opened Json
  import opened Trees

  /** A mapping read as a move of a field from its v2 place to its v1 place. */
  datatype Move = Move(source: Path, target: Path)

  /** One mapping; None is a conflict. A missing source is no conflict if the target is missing too. */
  function MoveOne(v: Tree, m: Move): Option<Tree>
  {
    var x := Get(v, m.source);
    if x.None? then (if Get(v, m.target).Some? then None else Some(v))
    else if !HasDict(v, m.target) || Get(v, m.target).Some? then None
    else Some(Write(Write(v, m.source, None), m.target, x))
  }

  function MoveAll(v: Tree, ms: seq<Move>): Option<Tree>
    decreases |ms|
  {
    if ms == [] then Some(v)
    else match MoveOne(v, ms[0]) case None => None case Some(w) => MoveAll(w, ms[1..])
  }

  predicate MoveApart(a: Move, b: Move)
  {
    Apart(a.source, b.source) && Apart(a.source, b.target) && Apart(a.target, b.source) && Apart(a.target, b.target)
  }

  /** No path of the mappings is a prefix of another, as the policy's overlap check demands. */
  ghost predicate PrefixFree(ms: seq<Move>)
  {
    && (forall i :: 0 <= i < |ms| ==> Apart(ms[i].source, ms[i].target))
    && (forall i, j :: 0 <= i < |ms| && 0 <= j < |ms| && i != j ==> MoveApart(ms[i], ms[j]))
  }

  // ----- one move beside another -----

  /** A successful move is the same two writes, and leaves every field apart from it as it was. */
  lemma MoveElsewhere(v: Tree, m: Move, p: Path)
    requires Apart(m.source, p) && Apart(m.target, p) && MoveOne(v, m).Some?
    ensures Get(MoveOne(v, m).value, p) == Get(v, p) && HasDict(MoveOne(v, m).value, p) == HasDict(v, p)
  {
    if Get(v, m.source).Some? {
      ReadElsewhere(v, m.source, None, p);
      ReadElsewhere(Write(v, m.source, None), m.target, Get(v, m.source), p);
    }
  }

  /** Whether a move conflicts is not affected by a move apart from it. */
  lemma ConflictElsewhere(v: Tree, a: Move, b: Move)
    requires MoveApart(a, b) && MoveOne(v, a).Some?
    ensures MoveOne(MoveOne(v, a).value, b).Some? <==> MoveOne(v, b).Some?
  {
    hide Get, HasDict, Write, Apart;
    MoveElsewhere(v, a, b.source);
    MoveElsewhere(v, a, b.target);
  }

  function Then(v: Option<Tree>, m: Move): Option<Tree>
  {
    match v case None => None case Some(w) => MoveOne(w, m)
  }

  lemma FourWrites(v: Tree, p: Path, q: Path, x: Option<Tree>, r: Path, s: Path, y: Option<Tree>)
    requires Apart(p, r) && Apart(p, s) && Apart(q, r) && Apart(q, s)
    ensures Write(Write(Write(Write(v, p, None), q, x), r, None), s, y)
            == Write(Write(Write(Write(v, r, None), s, y), p, None), q, x)
  {
    hide Write;
    var vp := Write(v, p, None);
    WritesCommute(vp, q, x, r, None);
    WritesCommute(v, p, None, r, None);
    var vr := Write(v, r, None);
    WritesCommute(Write(vr, p, None), q, x, s, y);
    WritesCommute(vr, p, None, s, y);
  }

  lemma MovesCommute(v: Tree, a: Move, b: Move)
    requires MoveApart(a, b)
    ensures Then(MoveOne(v, a), b) == Then(MoveOne(v, b), a)
  {
    hide Get, HasDict, Write;
    ApartIsSymmetric(a, b);
    if MoveOne(v, a).Some? && MoveOne(v, b).Some? {
      ConflictElsewhere(v, a, b);
      ConflictElsewhere(v, b, a);
      MoveElsewhere(v, a, b.source);
      MoveElsewhere(v, b, a.source);
      MoveElsewhere(v, a, b.target);
      MoveElsewhere(v, b, a.target);
      FourWrites(v, a.source, a.target, Get(v, a.source), b.source, b.target, Get(v, b.source));
    } else if MoveOne(v, a).Some? {
      ConflictElsewhere(v, a, b);
    } else if MoveOne(v, b).Some? {
      ConflictElsewhere(v, b, a);
    }
  }

  lemma ApartIsSymmetric(a: Move, b: Move)
    requires MoveApart(a, b)
    ensures MoveApart(b, a)
  {
  }

  // ----- every order of the mappings -----

  function MoveFrom(v: Option<Tree>, ms: seq<Move>): Option<Tree>
  {
    match v case None => None case Some(w) => MoveAll(w, ms)
  }

  /** A move apart from all others can be made last instead of first. */
  lemma {:induction false} BringForward(v: Tree, ms: seq<Move>, m: Move)
    requires forall i :: 0 <= i < |ms| ==> MoveApart(ms[i], m)
    ensures MoveAll(v, ms + [m]) == MoveAll(v, [m] + ms)
    decreases |ms|
  {
    hide Get, HasDict, Write, MoveOne, MoveApart;
    assert ([m] + ms)[1..] == ms;
    if ms == [] {
      assert ms + [m] == [m] + ms;
    } else {
      var a := ms[0];
      assert (ms + [m])[1..] == ms[1..] + [m];
      assert ([m] + ms[1..])[1..] == ms[1..];
      MovesCommute(v, a, m);
      if MoveOne(v, a).Some? {
        BringForward(MoveOne(v, a).value, ms[1..], m);
      }
    }
  }

  lemma {:induction false} MoveAllAppend(v: Tree, ms: seq<Move>, more: seq<Move>)
    ensures MoveAll(v, ms + more) == MoveFrom(MoveAll(v, ms), more)
    decreases |ms|
  {
    hide MoveOne;
    if ms == [] {
      assert ms + more == more;
    } else {
      assert (ms + more)[1..] == ms[1..] + more;
      if MoveOne(v, ms[0]).Some? {
        MoveAllAppend(MoveOne(v, ms[0]).value, ms[1..], more);
      }
    }
  }

  lemma PrefixFreeParts(ms: seq<Move>, i: nat)
    requires PrefixFree(ms) && i < |ms|
    ensures PrefixFree(ms[..i] + ms[i + 1..])
    ensures forall k :: 0 <= k < i ==> MoveApart(ms[..i][k], ms[i])
  {
    hide MoveApart, Apart;
    var rest := ms[..i] + ms[i + 1..];
    assert forall k :: 0 <= k < |rest| ==> rest[k] == if k < i then ms[k] else ms[k + 1];
  }

  /** Prefix-free mappings give the same tree, or the same conflict, in every order. */
  lemma {:induction false} OrderDoesNotMatter(v: Tree, ms: seq<Move>, ms': seq<Move>)
    requires PrefixFree(ms) && multiset(ms) == multiset(ms')
    ensures MoveAll(v, ms) == MoveAll(v, ms')
    decreases |ms'|
  {
    hide MoveOne, PrefixFree, MoveApart;
    if ms' == [] {
      assert |multiset(ms)| == |ms| && |multiset(ms')| == 0;
    } else {
      var m := ms'[0];
      assert m in multiset(ms');
      var i :| 0 <= i < |ms| && ms[i] == m;
      var rest := ms[..i] + ms[i + 1..];
      PrefixFreeParts(ms, i);
      Rotate(v, ms, i);
      TakeOut(ms, i);
      assert ms' == [m] + ms'[1..];
      assert ([m] + rest)[1..] == rest;
      assert multiset(rest) == multiset(ms) - multiset{m};
      assert multiset(ms'[1..]) == multiset(ms') - multiset{m};
      if MoveOne(v, m).Some? {
        OrderDoesNotMatter(MoveOne(v, m).value, rest, ms'[1..]);
      }
    }
  }

  lemma TakeOut(ms: seq<Move>, i: nat)
    requires i < |ms|
    ensures multiset(ms) == multiset(ms[..i] + ms[i + 1..]) + multiset{ms[i]}
  {
    assert ms == ms[..i] + [ms[i]] + ms[i + 1..];
  }

  lemma Rotate(v: Tree, ms: seq<Move>, i: nat)
    requires i < |ms| && forall k :: 0 <= k < i ==> MoveApart(ms[..i][k], ms[i])
    ensures MoveAll(v, ms) == MoveAll(v, [ms[i]] + (ms[..i] + ms[i + 1..]))
  {
    hide MoveAll, MoveApart;
    var head, m, tail := ms[..i], ms[i], ms[i + 1..];
    assert ms == (head + [m]) + tail;
    assert [m] + (head + tail) == ([m] + head) + tail;
    MoveAllAppend(v, head + [m], tail);
    MoveAllAppend(v, [m] + head, tail);
    BringForward(v, head, m);
  }

  // ----- undoing -----

  function Swap(m: Move): Move { Move(m.target, m.source) }

  function SwapAll(ms: seq<Move>): (r: seq<Move>)
    ensures |r| == |ms| && forall i :: 0 <= i < |ms| ==> r[i] == Swap(ms[i])
  {
    seq(|ms|, i requires 0 <= i < |ms| => Swap(ms[i]))
  }

  function ReversedMoves(ms: seq<Move>): seq<Move>
  {
    if ms == [] then [] else ReversedMoves(ms[1..]) + [ms[0]]
  }

  lemma UndoOne(v: Tree, m: Move)
    requires Apart(m.source, m.target) && MoveOne(v, m).Some?
    ensures MoveOne(MoveOne(v, m).value, Swap(m)) == Some(v)
  {
    hide Get, HasDict, Write, Apart;
    var x := Get(v, m.source);
    if x.Some? {
      var v1 := Write(v, m.source, None);
      var w := Write(v1, m.target, x);
      GetHasDict(v, m.source);
      ReadElsewhere(v, m.source, None, m.target);
      ReadBack(v, m.source, None);
      ReadBack(v1, m.target, x);
      ApartFlip(m);
      ReadElsewhere(v1, m.target, x, m.source);
      WriteAgain(v1, m.target, x, None);
      WriteSame(v1, m.target);
      WriteAgain(v, m.source, None, x);
      WriteSame(v, m.source);
    }
  }

  lemma ApartFlip(m: Move)
    requires Apart(m.source, m.target)
    ensures Apart(m.target, m.source)
  {
  }

  lemma {:induction false} UndoInReverse(v: Tree, ms: seq<Move>)
    requires MoveAll(v, ms).Some? && forall i :: 0 <= i < |ms| ==> Apart(ms[i].source, ms[i].target)
    ensures MoveAll(MoveAll(v, ms).value, ReversedMoves(SwapAll(ms))) == Some(v)
    decreases |ms|
  {
    hide MoveOne, Swap, Apart;
    if ms != [] {
      var m := ms[0];
      var w := MoveOne(v, m).value;
      UndoInReverse(w, ms[1..]);
      UndoOne(v, m);
      assert SwapAll(ms)[1..] == SwapAll(ms[1..]);
      MoveAllAppend(MoveAll(v, ms).value, ReversedMoves(SwapAll(ms[1..])), [Swap(m)]);
      assert MoveAll(w, [Swap(m)]) == MoveOne(w, Swap(m)) by { assert [Swap(m)][1..] == []; }
    }
  }

  lemma {:induction false} ReversedIsPermutation(ms: seq<Move>)
    ensures multiset(ReversedMoves(ms)) == multiset(ms)
  {
    if ms != [] {
      ReversedIsPermutation(ms[1..]);
      assert ms == [ms[0]] + ms[1..];
    }
  }

  lemma SwapAllPrefixFree(ms: seq<Move>)
    requires PrefixFree(ms)
    ensures PrefixFree(SwapAll(ms))
  {
  }

  /** Whatever the mappings moved, the opposite mappings move back, in the same order. */
  lemma MovesCanBeUndone(v: Tree, ms: seq<Move>)
    requires PrefixFree(ms) && MoveAll(v, ms).Some?
    ensures MoveAll(MoveAll(v, ms).value, SwapAll(ms)) == Some(v)
  {
    hide MoveAll, Swap;
    UndoInReverse(v, ms);
    SwapAllPrefixFree(ms);
    ReversedIsPermutation(SwapAll(ms));
    OrderDoesNotMatter(MoveAll(v, ms).value, SwapAll(ms), ReversedMoves(SwapAll(ms)));
  }

  // ----- what all moves together do -----

  lemma PrefixFreeTail(ms: seq<Move>)
    requires PrefixFree(ms) && ms != []
    ensures PrefixFree(ms[1..]) && Apart(ms[0].source, ms[0].target)
    ensures forall i :: 0 < i < |ms| ==> MoveApart(ms[0], ms[i])
  {
    hide MoveApart, Apart;
    assert forall k :: 0 <= k < |ms| - 1 ==> ms[1..][k] == ms[k + 1];
  }

  /** Prefix-free moves fail exactly when one of them conflicts in the tree as it came. */
  lemma {:induction false} ConflictsAreFound(v: Tree, ms: seq<Move>)
    requires PrefixFree(ms)
    ensures MoveAll(v, ms).None? <==> exists i :: 0 <= i < |ms| && MoveOne(v, ms[i]).None?
    decreases |ms|
  {
    hide MoveOne, PrefixFree, MoveApart;
    if ms != [] && MoveOne(v, ms[0]).Some? {
      var w := MoveOne(v, ms[0]).value;
      PrefixFreeTail(ms);
      ConflictsAreFound(w, ms[1..]);
      forall i | 0 < i < |ms| ensures MoveOne(v, ms[i]).None? <==> MoveOne(w, ms[1..][i - 1]).None? {
        ConflictElsewhere(v, ms[0], ms[i]);
      }
      if i :| 0 <= i < |ms| && MoveOne(v, ms[i]).None? {
        assert MoveOne(w, ms[1..][i - 1]).None?;
      }
      if i :| 0 <= i < |ms| - 1 && MoveOne(w, ms[1..][i]).None? {
        assert MoveOne(v, ms[i + 1]).None?;
      }
    }
  }

  /** A path apart from every move is left alone. */
  lemma {:induction false} OthersStay(v: Tree, ms: seq<Move>, q: Path)
    requires MoveAll(v, ms).Some? && forall i :: 0 <= i < |ms| ==> Apart(ms[i].source, q) && Apart(ms[i].target, q)
    ensures Get(MoveAll(v, ms).value, q) == Get(v, q)
    decreases |ms|
  {
    hide MoveOne, Get, Apart, HasDict;
    if ms != [] {
      MoveElsewhere(v, ms[0], q);
      OthersStay(MoveOne(v, ms[0]).value, ms[1..], q);
    }
  }

  lemma OneIsMade(v: Tree, m: Move)
    requires MoveOne(v, m).Some? && Apart(m.source, m.target)
    ensures Get(MoveOne(v, m).value, m.target) == Get(v, m.source) && Get(MoveOne(v, m).value, m.source) == None
  {
    hide Get, HasDict, Write, Apart;
    var x := Get(v, m.source);
    if x.Some? {
      var v1 := Write(v, m.source, None);
      GetHasDict(v, m.source);
      ReadElsewhere(v, m.source, None, m.target);
      ReadBack(v, m.source, None);
      ReadBack(v1, m.target, x);
      ApartFlip(m);
      ReadElsewhere(v1, m.target, x, m.source);
    }
  }

  /** Each move takes the value from its source to its target. */
  lemma {:induction false} MovesAreMade(v: Tree, ms: seq<Move>)
    requires PrefixFree(ms) && MoveAll(v, ms).Some?
    ensures forall i :: 0 <= i < |ms| ==>
              && Get(MoveAll(v, ms).value, ms[i].target) == Get(v, ms[i].source)
              && Get(MoveAll(v, ms).value, ms[i].source) == None
    decreases |ms|
  {
    hide MoveOne, PrefixFree, Get, HasDict, Apart;
    if ms != [] {
      var m, w := ms[0], MoveOne(v, ms[0]).value;
      PrefixFreeTail(ms);
      MovesAreMade(w, ms[1..]);
      OneIsMade(v, m);
      forall i | 0 <= i < |ms| - 1
        ensures Apart(ms[1..][i].source, m.source) && Apart(ms[1..][i].target, m.source)
        ensures Apart(ms[1..][i].source, m.target) && Apart(ms[1..][i].target, m.target)
      {
        ApartIsSymmetric(m, ms[i + 1]);
      }
      OthersStay(w, ms[1..], m.source);
      OthersStay(w, ms[1..], m.target);
      forall i | 0 < i < |ms|
        ensures Get(MoveAll(v, ms).value, ms[i].target) == Get(v, ms[i].source)
        ensures Get(MoveAll(v, ms).value, ms[i].source) == None
      {
        assert ms[1..][i - 1] == ms[i] && MoveApart(m, ms[i]);
        MoveElsewhere(v, m, ms[i].source);
      }
    }
  }
}
