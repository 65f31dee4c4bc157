/** The result of a comparison in terms of the two responses: refusals, metadata, positions and applied rules. */
module Results {
  import opened Options
  import opened Json
  import opened Differences
  import opened Walk
  import opened Agreement
  import opened FieldMappings
  import opened Parser
  import opened Compare
  import opened Positions
  import Indices

  // ----- the preconditions, as one table -----

  /** One test: whether its cause is there, and what it answers. */
  datatype Test = Test(cause: bool, refusal: Refusal)

  function Because(cause: bool, kind: Kind, reason: string): Test
  {
    Test(cause, Refusal(kind, reason))
  }

  /** The first test whose cause is there. */
  function FirstOf(tests: seq<Test>): (r: Option<Refusal>)
    ensures r.None? <==> forall i :: 0 <= i < |tests| ==> !tests[i].cause
    ensures r.Some? ==> exists i :: 0 <= i < |tests| && tests[i].cause && r.value == tests[i].refusal
                                    && forall k :: 0 <= k < i ==> !tests[k].cause
  {
    if tests == [] then None
    else if tests[0].cause then Some(tests[0].refusal)
    else
      var rest := FirstOf(tests[1..]);
      assert forall i :: 0 < i < |tests| ==> tests[i] == tests[1..][i - 1];
      rest
  }

  /** How one response can fail. */
  function FailureTests(r: Response): seq<Test>
  {
    [Because(r.execution == TimedOut, ExecutionError, "timeout"),
     Because(r.execution == Cancelled, ExecutionError, "cancelled"),
     Because(r.execution == TransportError, ExecutionError, "transport_error"),
     Because(r.contract == UnexpectedError, ExecutionError, "unexpected_api_error")]
  }

  /** Why one response cannot be compared. */
  function UseTests(p: Policy, r: Response): seq<Test>
  {
    [Because(r.contract != Success && r.contract != ExpectedRejection, NotComparable, "contract_class_unknown"),
     Because(r.status == None, NotComparable, "status_unavailable"),
     Because(!r.bodyComplete, NotComparable, "body_incomplete"),
     Because(!Captured(p, r) && r.capture == CaptureOversized, NotComparable, "capture_oversized"),
     Because(!Captured(p, r), NotComparable, "capture_unavailable")]
  }

  /** What is known of one part of the context can be against the comparison, or nothing can be known of it. */
  function About(known: Option<bool>, mismatch: string, unknown: string): seq<Test>
  {
    [Because(known == Some(false), NotComparable, mismatch), Because(known == None, NotComparable, unknown)]
  }

  function ContextTests(c: Context): seq<Test>
  {
    About(c.request, "logical_request_context_mismatch", "logical_request_context_unknown")
    + About(c.authorization, "authorization_context_mismatch", "authorization_context_unknown")
    + About(c.data, "data_context_mismatch", "data_context_unknown")
  }

  /** Every test there is, in order. */
  function Tests(p: Policy, v1: Response, v2: Response, c: Context): seq<Test>
  {
    [Because(v1.execution == NotDispatched || v2.execution == NotDispatched, NotExecuted, "shadow_not_dispatched")]
    + FailureTests(v1) + FailureTests(v2)
    + [Because(v1.execution != HttpResponse || v2.execution != HttpResponse, NotComparable, "execution_outcome_unknown")]
    + UseTests(p, v1) + UseTests(p, v2) + ContextTests(c)
  }

  lemma {:induction false} FirstOfBoth(a: seq<Test>, b: seq<Test>)
    ensures FirstOf(a + b) == if FirstOf(a).Some? then FirstOf(a) else FirstOf(b)
    decreases |a|
  {
    if a == [] {
      assert a + b == b;
    } else {
      assert (a + b)[0] == a[0] && (a + b)[1..] == a[1..] + b;
      FirstOfBoth(a[1..], b);
    }
  }

  lemma Step(tests: seq<Test>, i: nat)
    requires i < |tests|
    ensures FirstOf(tests[i..]) == if tests[i].cause then Some(tests[i].refusal) else FirstOf(tests[i + 1..])
  {
    assert tests[i..][1..] == tests[i + 1..];
  }

  lemma FailedIsTable(r: Response)
    ensures Failed(r) == FirstOf(FailureTests(r))
  {
    hide FirstOf;
    var t := FailureTests(r);
    assert t[0..] == t && t[4..] == [];
    Step(t, 0);
    Step(t, 1);
    Step(t, 2);
    Step(t, 3);
  }

  lemma UnusableIsTable(p: Policy, r: Response)
    ensures Unusable(p, r) == FirstOf(UseTests(p, r))
  {
    hide FirstOf;
    var t := UseTests(p, r);
    assert t[0..] == t && t[5..] == [];
    Step(t, 0);
    Step(t, 1);
    Step(t, 2);
    Step(t, 3);
    Step(t, 4);
  }

  lemma AboutIs(known: Option<bool>, mismatch: string, unknown: string)
    ensures FirstOf(About(known, mismatch, unknown)) ==
              if known == Some(true) then None
              else Some(Refusal(NotComparable, if known == Some(false) then mismatch else unknown))
  {
    hide FirstOf;
    var t := About(known, mismatch, unknown);
    assert t[0..] == t && t[2..] == [];
    Step(t, 0);
    Step(t, 1);
    KnownOrNot(known);
  }

  lemma DoubtsAreTable(c: Context)
    ensures Doubts(c) == FirstOf(ContextTests(c))
  {
    hide FirstOf, About;
    var a := About(c.request, "logical_request_context_mismatch", "logical_request_context_unknown");
    var b := About(c.authorization, "authorization_context_mismatch", "authorization_context_unknown");
    var d := About(c.data, "data_context_mismatch", "data_context_unknown");
    AboutIs(c.request, "logical_request_context_mismatch", "logical_request_context_unknown");
    AboutIs(c.authorization, "authorization_context_mismatch", "authorization_context_unknown");
    AboutIs(c.data, "data_context_mismatch", "data_context_unknown");
    FirstOfBoth(a, b);
    FirstOfBoth(a + b, d);
  }

  lemma KnownOrNot(x: Option<bool>)
    ensures x == None || x == Some(true) || x == Some(false)
  {
    if x.Some? {
      var known := x.value;
      assert x == Some(known);
    }
  }

  lemma FirstOfOne(t: Test)
    ensures FirstOf([t]) == if t.cause then Some(t.refusal) else None
  {
  }

  /** The precondition that is reported is the first of the table whose cause is there. */
  lemma LadderIsTable(p: Policy, v1: Response, v2: Response, c: Context)
    ensures Ladder(p, v1, v2, c) == FirstOf(Tests(p, v1, v2, c))
  {
    hide Failed, Unusable, Doubts, FailureTests, UseTests, ContextTests, FirstOf;
    var first :=
      Because(v1.execution == NotDispatched || v2.execution == NotDispatched, NotExecuted, "shadow_not_dispatched");
    var middle :=
      Because(v1.execution != HttpResponse || v2.execution != HttpResponse, NotComparable, "execution_outcome_unknown");
    var a := [first] + FailureTests(v1);
    var b := a + FailureTests(v2);
    var d := b + [middle];
    var e := d + UseTests(p, v1);
    var f := e + UseTests(p, v2);
    FirstOfBoth([first], FailureTests(v1));
    FirstOfBoth(a, FailureTests(v2));
    FirstOfBoth(b, [middle]);
    FirstOfBoth(d, UseTests(p, v1));
    FirstOfBoth(e, UseTests(p, v2));
    FirstOfBoth(f, ContextTests(c));
    FirstOfOne(first);
    FirstOfOne(middle);
    FailedIsTable(v1);
    FailedIsTable(v2);
    UnusableIsTable(p, v1);
    UnusableIsTable(p, v2);
    DoubtsAreTable(c);
  }

  // ----- the metadata -----

  predicate SameLetter(c: char, d: char)
  {
    || c == d
    || ('A' <= c <= 'Z' && d as int == c as int + 32)
    || ('A' <= d <= 'Z' && c as int == d as int + 32)
  }

  /** The names are the same but for the case of ASCII letters. */
  predicate SameName(a: string, b: string)
  {
    |a| == |b| && forall i :: 0 <= i < |a| ==> SameLetter(a[i], b[i])
  }

  lemma LowerIsSameName(a: string, b: string)
    ensures Lower(a) == Lower(b) <==> SameName(a, b)
  {
    if Lower(a) == Lower(b) {
      forall i | 0 <= i < |a| ensures SameLetter(a[i], b[i]) {
        assert Lower(a)[i] == Lower(b)[i];
      }
    }
  }

  /** The values of all headers of a name, in order. */
  function ValuesNamed(headers: seq<(string, string)>, name: string): seq<string>
  {
    if headers == [] then []
    else (if SameName(headers[0].0, name) then [headers[0].1] else []) + ValuesNamed(headers[1..], name)
  }

  lemma {:induction false} NamedSnoc(headers: seq<(string, string)>, h: (string, string), name: string)
    ensures ValuesNamed(headers + [h], name) == ValuesNamed(headers, name) + (if SameName(h.0, name) then [h.1] else [])
    decreases |headers|
  {
    hide SameName;
    var all := headers + [h];
    if headers == [] {
      assert all[1..] == [];
    } else {
      assert all[0] == headers[0] && all[1..] == headers[1..] + [h];
      NamedSnoc(headers[1..], h, name);
    }
  }

  lemma {:induction false} HeaderValuesAreNamed(headers: seq<(string, string)>, name: string)
    ensures HeaderValues(headers, name) == ValuesNamed(headers, name)
  {
    hide SameName, Lower;
    if headers != [] {
      var n := |headers| - 1;
      HeaderValuesAreNamed(headers[..n], name);
      NamedSnoc(headers[..n], headers[n], name);
      assert headers == headers[..n] + [headers[n]];
      LowerIsSameName(headers[n].0, name);
    }
  }

  /** Both responses have the header, with the same values in the same order. */
  predicate HeadersMatch(v1: Response, v2: Response, name: string)
  {
    ValuesNamed(v1.headers, name) != [] && ValuesNamed(v1.headers, name) == ValuesNamed(v2.headers, name)
  }

  /** The registered pair of the two statuses that counts: the first of them. */
  predicate PairedBy(p: Policy, rules: bool, v1: Response, v2: Response, i: nat)
  {
    && rules && v1.status != v2.status && i < |p.statusEquivalences|
    && v1.status == Some(p.statusEquivalences[i].0) && v2.status == Some(p.statusEquivalences[i].1)
    && forall k :: 0 <= k < i ==>
         v1.status != Some(p.statusEquivalences[k].0) || v2.status != Some(p.statusEquivalences[k].1)
  }

  function Missed(names: seq<string>, v1: Response, v2: Response): set<nat>
  {
    set i: nat | i < |names| && !HeadersMatch(v1, v2, names[i])
  }

  /** What the metadata contribute: one difference for the class, one for the status, and one for each missed header. */
  ghost predicate IsMetadata(p: Policy, rules: bool, v1: Response, v2: Response, ds: seq<Difference>)
  {
    var c := if v1.contract != v2.contract then 1 else 0;
    var st := if v1.status != v2.status && forall i: nat :: !PairedBy(p, rules, v1, v2, i) then 1 else 0;
    && |ds| == c + st + |Missed(p.requiredHeaders, v1, v2)|
    && (c == 1 ==> ds[0] == Difference("@contract_class", ContractClassMismatch))
    && (st == 1 ==> ds[c] == Difference("@status", StatusMismatch))
    && forall i :: c + st <= i < |ds| ==> ds[i] == Difference("@header", RequiredHeaderMismatch)
  }

  lemma {:induction false} HeaderDifferences(names: seq<string>, v1: Response, v2: Response)
    ensures
      var ds := DifferencesOf(HeaderEvents(names, v1, v2));
      && |ds| == |Missed(names, v1, v2)|
      && forall i :: 0 <= i < |ds| ==> ds[i] == Difference("@header", RequiredHeaderMismatch)
    ensures RulesOf(HeaderEvents(names, v1, v2)) == {}
  {
    hide HeaderValues, ValuesNamed, HeadersMatch, HeaderAgrees;
    if names == [] {
      assert Missed(names, v1, v2) == {};
    } else {
      var n := |names| - 1;
      HeaderDifferences(names[..n], v1, v2);
      HeadersClean(names, v1, v2);
      HeaderMatches(v1, v2, names[n]);
      var before, last := HeaderEvents(names[..n], v1, v2), Differs(Difference("@header", RequiredHeaderMismatch));
      MissedNext(names, v1, v2);
      DifferencesAppend(before, [last]);
      OneEvent(last);
      assert before + [] == before;
    }
  }

  lemma MissedNext(names: seq<string>, v1: Response, v2: Response)
    requires names != []
    ensures
      var n := |names| - 1;
      |Missed(names, v1, v2)| == |Missed(names[..n], v1, v2)| + if HeadersMatch(v1, v2, names[n]) then 0 else 1
  {
    hide HeadersMatch;
    var n: nat := |names| - 1;
    assert Missed(names, v1, v2) == Missed(names[..n], v1, v2) + if HeadersMatch(v1, v2, names[n]) then {} else {n};
  }

  lemma HeaderMatches(v1: Response, v2: Response, name: string)
    ensures HeaderAgrees(v1, v2, name) <==> HeadersMatch(v1, v2, name)
  {
    HeaderValuesAreNamed(v1.headers, name);
    HeaderValuesAreNamed(v2.headers, name);
  }

  lemma {:induction false} PairAtIsFirst(pairs: seq<(int, int)>, a: Option<int>, b: Option<int>)
    ensures PairAt(pairs, a, b).Some? ==>
              forall k :: 0 <= k < PairAt(pairs, a, b).value ==> a != Some(pairs[k].0) || b != Some(pairs[k].1)
  {
    if pairs != [] && !(a == Some(pairs[0].0) && b == Some(pairs[0].1)) {
      PairAtIsFirst(pairs[1..], a, b);
    }
  }

  lemma StatusIs(p: Policy, rules: bool, v1: Response, v2: Response)
    ensures
      var pair := PairAt(p.statusEquivalences, v1.status, v2.status);
      && (forall i: nat :: PairedBy(p, rules, v1, v2, i) <==> rules && v1.status != v2.status && pair == Some(i))
  {
    PairAtIsFirst(p.statusEquivalences, v1.status, v2.status);
  }

  /** The metadata contribute exactly these differences, and at most the rule of a registered pair of statuses. */
  lemma MetadataIsExact(p: Policy, rules: bool, v1: Response, v2: Response)
    ensures IsMetadata(p, rules, v1, v2, DifferencesOf(MetaEvents(p, rules, v1, v2)))
    ensures forall r :: r in RulesOf(MetaEvents(p, rules, v1, v2)) <==>
              exists i: nat :: r == StatusPair(i) && PairedBy(p, rules, v1, v2, i)
  {
    hide HeaderEvents, HeaderAgrees, HeadersMatch, DifferencesOf, RulesOf, PairAt, Missed;
    var a, b, c := ClassEvents(v1, v2), StatusEvents(p, rules, v1, v2), HeaderEvents(p.requiredHeaders, v1, v2);
    HeaderDifferences(p.requiredHeaders, v1, v2);
    StatusIs(p, rules, v1, v2);
    DifferencesAppend(a, b);
    DifferencesAppend(a + b, c);
    RulesAppend(a, b);
    RulesAppend(a + b, c);
    FewEvents(a);
    FewEvents(b);
  }

  lemma FewEvents(es: seq<Event>)
    requires |es| <= 1
    ensures DifferencesOf(es) == if es != [] && es[0].Differs? then [es[0].difference] else []
    ensures RulesOf(es) == if es != [] && es[0].Applies? then {es[0].rule} else {}
  {
    if es != [] {
      assert es == [es[0]];
      OneEvent(es[0]);
    }
  }

  // ----- reading both bodies -----

  /** What can stop the reading of two bodies: the decoding of either, and then the parsing of either. */
  ghost function ReadingTests(
    p: Policy, v1: Response, v2: Response, decode: Response -> Decoded, reader: Reader): seq<Test>
  {
    [DecodingTest(decode(v1)), DecodingTest(decode(v2))]
    + if decode(v1).Undecodable? || decode(v2).Undecodable? || BothEmpty(p, decode(v1), decode(v2)) then []
      else [ParsingTest(Parse(p, reader, decode(v1).bytes)), ParsingTest(Parse(p, reader, decode(v2).bytes))]
  }

  function DecodingTest(d: Decoded): Test
  {
    Because(d.Undecodable?, NotComparable, if d.Undecodable? then d.reason else "")
  }

  function ParsingTest(d: Parsed): Test
  {
    Because(d.Unparsable?, NotComparable, if d.Unparsable? then d.reason else "")
  }

  predicate BothEmpty(p: Policy, a: Decoded, b: Decoded)
  {
    p.allowEmptyBody && a == Plain([]) && b == Plain([])
  }

  /** The bodies are read exactly when nothing stops it: they are the parsed documents, or nothing where both are empty. */
  lemma DocumentsAreTable(p: Policy, v1: Response, v2: Response, decode: Response -> Decoded, reader: Reader)
    ensures
      var (refusal, left, right) := Documents(p, v1, v2, decode, reader);
      && refusal == FirstOf(ReadingTests(p, v1, v2, decode, reader))
      && (refusal.None? ==>
            if BothEmpty(p, decode(v1), decode(v2)) then left == Null && right == Null
            else
              && Parse(p, reader, decode(v1).bytes) == Document(left)
              && Parse(p, reader, decode(v2).bytes) == Document(right))
  {
    hide Parse, FirstOf;
    var t := ReadingTests(p, v1, v2, decode, reader);
    assert t[0..] == t && t[|t|..] == [];
    Step(t, 0);
    Step(t, 1);
    if |t| == 4 {
      Step(t, 2);
      Step(t, 3);
    }
  }

  // ----- the result -----

  lemma {:induction false} AllRulesPlayed(p: Policy, s: Summary, applied: set<Rule>, es: seq<Event>)
    requires !Play(p, s, applied, es).0.limited
    ensures Play(p, s, applied, es).1 == applied + RulesOf(es)
    decreases |es|
  {
    if es != [] {
      assert es == [es[0]] + es[1..];
      RulesCons(es[0], es[1..]);
      if s.limited {
        PlayStopped(p, s, applied, es);
      } else {
        match es[0]
        case Differs(d) => AllRulesPlayed(p, AddTo(p, s, d.path, d.reason), applied, es[1..]);
        case Applies(r) => AllRulesPlayed(p, s, applied + {r}, es[1..]);
      }
    }
  }

  /** The rule is applied somewhere: to a field that is mapped, to the statuses, or at a position of the documents. */
  ghost predicate RuleApplies(p: Policy, v1: Response, v2: Response, left: Json, right: Json, mapped: Json, rule: Rule)
    requires PathsDecode(p.mappings)
  {
    || (exists i: nat :: i < |p.mappings| && rule == Mapped(i) && ValueAt(right, p.mappings[i].v2Path).Some?)
    || (exists i: nat :: rule == StatusPair(i) && PairedBy(p, true, v1, v2, i))
    || (exists q :: ReportedAt(p, true, "", There(left), There(mapped), q, Applies(rule)))
  }

  lemma RecordedRules(p: Policy, v1: Response, v2: Response, left: Json, mapped: Json, applied: set<Rule>, rule: Rule)
    requires Comparable(p, left) && Comparable(p, mapped) && !Recorded(p, true, v1, v2, left, mapped, applied).0.limited
    ensures rule in Recorded(p, true, v1, v2, left, mapped, applied).1 <==>
              || rule in applied
              || (exists i: nat :: rule == StatusPair(i) && PairedBy(p, true, v1, v2, i))
              || (exists q :: ReportedAt(p, true, "", There(left), There(mapped), q, Applies(rule)))
  {
    hide MetaEvents, AllEvents, Play, AddAll, RulesOf, Comparable, PairedBy, ReportedAt;
    var meta, es := MetaEvents(p, true, v1, v2), AllEvents(p, true, left, mapped);
    AllRulesPlayed(p, AddAll(p, EMPTY, DifferencesOf(meta)), applied + RulesOf(meta), es);
    MetadataIsExact(p, true, v1, v2);
    RulesAreExact(p, true, left, mapped, rule);
  }

  /**
   The whole result. It is refused exactly when some mapping conflicts in v2's document; otherwise the
   record describes the differences of the metadata and then of v1's document and the mapped one, the
   verdict is whether there is any, and the rules reported are those that apply somewhere.
   */
  lemma ResultIsExact(p: Policy, v1: Response, v2: Response, left: Json, right: Json, rule: Rule)
    requires PolicyOk(p) && Comparable(p, left) && Comparable(p, right)
    ensures
      var r := Result(p, v1, v2, left, right);
      var mapped := MapFrom(right, MovesOf(p.mappings), 0, {});
      && ((exists i :: 0 <= i < |p.mappings| && Conflicts(right, p.mappings[i])) <==>
            r == Unavailable(Refusal(NotComparable, "policy_mapping_conflict")))
      && (mapped.Some? ==>
            var ds := DifferencesOf(MetaEvents(p, true, v1, v2)) + DifferencesOf(AllEvents(p, true, left, mapped.value.0));
            && r.Compared? && Describes(p, r.record, ds) && (r.matched <==> ds == [])
            && r.class_ == (if v1.contract == v2.contract then Of(v1.contract) else Mixed)
            && (|ds| <= p.maxDifferences ==>
                  (rule in r.applied <==> RuleApplies(p, v1, v2, left, right, mapped.value.0, rule))))
  {
    hide Comparable, Recorded, MapFrom, NoOverlap, MetaEvents, AllEvents, DifferencesOf, Conflicts, RuleApplies, Describes;
    MappingMovesFields(right, p.mappings, {});
    var mapped := MapFrom(right, MovesOf(p.mappings), 0, {});
    if mapped.Some? {
      var w, applied := mapped.value.0, mapped.value.1;
      MapFromIsComparable(p, right, MovesOf(p.mappings), 0, {});
      RecordedDescribes(p, true, v1, v2, left, w, applied);
      var ds := DifferencesOf(MetaEvents(p, true, v1, v2)) + DifferencesOf(AllEvents(p, true, left, w));
      CountAndLimit(p, Recorded(p, true, v1, v2, left, w, applied).0, ds);
      if |ds| <= p.maxDifferences {
        RulesReported(p, v1, v2, left, right, rule);
      }
    }
  }

  lemma CountAndLimit(p: Policy, s: Summary, ds: seq<Difference>)
    requires Describes(p, s, ds) && p.maxDifferences > 0
    ensures (s.count == 0 <==> ds == []) && (s.limited <==> |ds| > p.maxDifferences)
  {
    hide Shown;
  }

  lemma RulesReported(p: Policy, v1: Response, v2: Response, left: Json, right: Json, rule: Rule)
    requires PolicyOk(p) && Comparable(p, left) && Comparable(p, right)
    requires MapFrom(right, MovesOf(p.mappings), 0, {}).Some?
    requires
      var (w, applied) := MapFrom(right, MovesOf(p.mappings), 0, {}).value;
      !Recorded(p, true, v1, v2, left, w, applied).0.limited
    ensures
      var (w, applied) := MapFrom(right, MovesOf(p.mappings), 0, {}).value;
      rule in Recorded(p, true, v1, v2, left, w, applied).1 <==> RuleApplies(p, v1, v2, left, right, w, rule)
  {
    hide Comparable, Recorded, MapFrom, NoOverlap, PairedBy, ReportedAt, ValueAt;
    var (w, applied) := MapFrom(right, MovesOf(p.mappings), 0, {}).value;
    MapFromIsComparable(p, right, MovesOf(p.mappings), 0, {});
    MappingsAreReported(right, p.mappings, {}, rule);
    RecordedRules(p, v1, v2, left, w, applied, rule);
  }

  /** The verdict: roles, then the table of preconditions, then the bodies, then the result. */
  lemma VerdictIsExact(
    p: Policy, v1: Response, v2: Response, c: Context, decode: Response -> Decoded, reader: Reader)
    requires PolicyOk(p)
    ensures
      var tests := Tests(p, v1, v2, c) + ReadingTests(p, v1, v2, decode, reader);
      var (_, left, right) := Documents(p, v1, v2, decode, reader);
      Verdict(p, v1, v2, c, decode, reader) ==
        if !RolesOk(v1, v2) then RolesInvalid
        else if FirstOf(tests).Some? then Unavailable(FirstOf(tests).value)
        else Result(p, v1, v2, left, right)
  {
    hide Ladder, Documents, Tests, ReadingTests, FirstOf, Result;
    LadderIsTable(p, v1, v2, c);
    DocumentsAreTable(p, v1, v2, decode, reader);
    FirstOfBoth(Tests(p, v1, v2, c), ReadingTests(p, v1, v2, decode, reader));
  }

  // ----- two ways to follow keys -----

  /** The keys of a mapping lead to the same value as the keys of a position, inside an object. */
  lemma {:induction false} MappedFieldIsPosition(v: Json, q: Keys)
    requires q != []
    ensures FieldAt(v, q).Some? <==> At(There(v), q).There? && InObject(v, q)
    ensures FieldAt(v, q).Some? ==> At(There(v), q) == There(FieldAt(v, q).value)
    decreases |q|
  {
    hide Indices.NatText;
    StepsAlike(v, q[0]);
    if |q| > 1 && ChildOf(v, q[0]).Some? {
      MappedFieldIsPosition(ChildOf(v, q[0]).value, q[1..]);
      assert q[1..][..|q| - 2] == q[1..|q| - 1] && q[..|q| - 1][1..] == q[1..|q| - 1];
    }
    if |q| > 1 && ChildOf(v, q[0]).None? {
      Nowhere(q[1..]);
      Nowhere(q[1..|q| - 1]);
      assert q[..|q| - 1][1..] == q[1..|q| - 1];
    }
  }

  /** The keys but the last lead to an object. */
  ghost predicate InObject(v: Json, q: Keys)
    requires q != []
  {
    At(There(v), q[..|q| - 1]).There? && At(There(v), q[..|q| - 1]).json.Obj?
  }

  lemma {:induction false} Nowhere(q: Keys)
    ensures At(Missing, q) == Missing
  {
    if q != [] {
      Nowhere(q[1..]);
    }
  }

  lemma StepsAlike(v: Json, key: string)
    ensures Below(There(v), key) == if ChildOf(v, key).Some? then There(ChildOf(v, key).value) else Missing
  {
    hide Indices.NatText, Indices.Select;
    if v.Arr? {
      forall i: nat | i < |v.items| ensures IsElement(v.items, key, i) <==> Indices.Select(key, |v.items|) == Some(i) {
        Indices.SelectReadsNatText(key, i, |v.items|);
      }
      SelectInRange(key, |v.items|);
    }
  }

  lemma SelectInRange(key: string, n: nat)
    ensures Indices.Select(key, n).Some? ==> Indices.Select(key, n).value < n
  {
  }

  // ----- dictionaries keep their order -----

  lemma {:induction false} WithoutKeepsOrder(keys: seq<string>, k: string, a: string, b: string)
    requires a != k && b != k
    ensures a in FieldMappings.Without(keys, k) <==> a in keys
    ensures ComesBefore(FieldMappings.Without(keys, k), a, b) <==> ComesBefore(keys, a, b)
  {
    if keys != [] {
      WithoutKeepsOrder(keys[1..], k, a, b);
      WithoutKeepsOrder(keys[1..], k, b, a);
      var rest := FieldMappings.Without(keys[1..], k);
      assert keys == [keys[0]] + keys[1..];
      FirstBefore(keys[0], keys[1..], a, b);
      if keys[0] == k {
        assert FieldMappings.Without(keys, k) == rest;
      } else {
        assert FieldMappings.Without(keys, k) == [keys[0]] + rest;
        FirstBefore(keys[0], rest, a, b);
      }
    }
  }

  lemma FirstBefore(first: string, rest: seq<string>, a: string, b: string)
    ensures ComesBefore([first] + rest, a, b) <==> (first == a && b in rest) || ComesBefore(rest, a, b)
  {
    var all := [first] + rest;
    assert forall i :: 0 <= i < |rest| ==> all[i + 1] == rest[i];
    if i, j :| 0 <= i < j < |all| && all[i] == a && all[j] == b {
      assert all[j] == rest[j - 1];
      if i > 0 {
        assert rest[i - 1] == a && rest[j - 1] == b;
      }
    }
    if first == a && b in rest {
      var j :| 0 <= j < |rest| && rest[j] == b;
      assert all[0] == a && all[j + 1] == b;
    }
    if i, j :| 0 <= i < j < |rest| && rest[i] == a && rest[j] == b {
      assert all[i + 1] == a && all[j + 1] == b;
    }
  }

  /** Taking a key out of a dictionary leaves the others in their order; a new key comes last; a key keeps its place. */
  lemma DictionariesKeepOrder(v: Json, k: string, x: Json, a: string, b: string)
    requires v.Obj? && a != k && b != k
    ensures
      var removed := SetField(v, [k], None).order;
      && (a in removed <==> a in v.order) && (ComesBefore(removed, a, b) <==> ComesBefore(v.order, a, b))
    ensures k in v.fields ==> SetField(v, [k], Some(x)).order == v.order
    ensures
      k !in v.fields ==>
        var added := SetField(v, [k], Some(x)).order;
        && (ComesBefore(added, a, b) <==> ComesBefore(v.order, a, b)) && (a in v.order ==> ComesBefore(added, a, k))
  {
    WithoutKeepsOrder(v.order, k, a, b);
    LastBefore(v.order, k, a, b);
  }

  lemma LastBefore(keys: seq<string>, k: string, a: string, b: string)
    requires a != k && b != k
    ensures ComesBefore(keys + [k], a, b) <==> ComesBefore(keys, a, b)
    ensures a in keys ==> ComesBefore(keys + [k], a, k)
  {
    var all := keys + [k];
    if i, j :| 0 <= i < j < |keys| && keys[i] == a && keys[j] == b {
      assert all[i] == a && all[j] == b;
    }
    if i :| 0 <= i < |keys| && keys[i] == a {
      assert all[i] == a && all[|keys|] == k;
    }
  }
}
