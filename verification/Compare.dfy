/** The whole comparison of two responses: the ladder of preconditions, the raw and the normalised record. */
module Compare {
  import opened Options
  import opened Json
  import opened Differences
  import opened Walk
  import opened Agreement
  import opened FieldMappings
  import opened Parser
  import FM = FieldMoves
  import Trees

  datatype Role = Serving | ShadowRole | OtherRole

  datatype Execution = NotDispatched | TimedOut | Cancelled | TransportError | HttpResponse | OtherExecution

  datatype Contract = Success | ExpectedRejection | UnexpectedError | OtherContract(name: string)

  datatype Capture = CaptureComplete | CaptureOversized | CaptureNotNeeded | CaptureMissing

  datatype Response = Response(
    isV1: bool, isV2: bool, role: Role, execution: Execution, contract: Contract, status: Option<int>,
    headers: seq<(string, string)>, body: Option<Bytes>, capture: Capture, bodyComplete: bool)

  datatype Context = Context(request: Option<bool>, authorization: Option<bool>, data: Option<bool>)

  datatype Kind = NotExecuted | ExecutionError | NotComparable

  datatype Refusal = Refusal(kind: Kind, reason: string)

  datatype Class = Mixed | Of(contract: Contract)

  datatype Outcome =
    | RolesInvalid
    | Unavailable(refusal: Refusal)
    | Compared(matched: bool, class_: Class, record: Summary, rawCount: nat, rawLimited: bool, applied: set<Rule>)

  /** Content decoding, which may refuse with a reason. */
  datatype Decoded = Plain(bytes: Bytes) | Undecodable(reason: string)

  /** What the policy's own validation has checked. */
  ghost predicate PolicyOk(p: Policy)
  {
    p.maxDifferences > 0 && p.limits.digits >= 1 && PathsDecode(p.mappings) && NoOverlap(MappingPaths(p.mappings))
  }

  // ----- the preconditions -----

  function Failed(r: Response): Option<Refusal>
  {
    if r.execution.TimedOut? then Some(Refusal(ExecutionError, "timeout"))
    else if r.execution.Cancelled? then Some(Refusal(ExecutionError, "cancelled"))
    else if r.execution.TransportError? then Some(Refusal(ExecutionError, "transport_error"))
    else if r.contract.UnexpectedError? then Some(Refusal(ExecutionError, "unexpected_api_error"))
    else None
  }

  function Unusable(p: Policy, r: Response): Option<Refusal>
  {
    if !r.contract.Success? && !r.contract.ExpectedRejection? then Some(Refusal(NotComparable, "contract_class_unknown"))
    else if r.status.None? then Some(Refusal(NotComparable, "status_unavailable"))
    else if !r.bodyComplete then Some(Refusal(NotComparable, "body_incomplete"))
    else if !r.capture.CaptureComplete? && !(r.capture.CaptureNotNeeded? && p.allowEmptyBody && r.body == Some([])) then
      Some(Refusal(NotComparable, if r.capture.CaptureOversized? then "capture_oversized" else "capture_unavailable"))
    else None
  }

  function Doubts(c: Context): Option<Refusal>
  {
    if c.request != Some(true) then Some(Refusal(NotComparable,
      if c.request == Some(false) then "logical_request_context_mismatch" else "logical_request_context_unknown"))
    else if c.authorization != Some(true) then Some(Refusal(NotComparable,
      if c.authorization == Some(false) then "authorization_context_mismatch" else "authorization_context_unknown"))
    else if c.data != Some(true) then Some(Refusal(NotComparable,
      if c.data == Some(false) then "data_context_mismatch" else "data_context_unknown"))
    else None
  }

  /** The first precondition that fails, in the order in which they are tested. */
  function Ladder(p: Policy, v1: Response, v2: Response, c: Context): Option<Refusal>
  {
    if v1.execution.NotDispatched? || v2.execution.NotDispatched? then Some(Refusal(NotExecuted, "shadow_not_dispatched"))
    else if Failed(v1).Some? then Failed(v1)
    else if Failed(v2).Some? then Failed(v2)
    else if !v1.execution.HttpResponse? || !v2.execution.HttpResponse? then
      Some(Refusal(NotComparable, "execution_outcome_unknown"))
    else if Unusable(p, v1).Some? then Unusable(p, v1)
    else if Unusable(p, v2).Some? then Unusable(p, v2)
    else Doubts(c)
  }

  /** The body was captured whole, or none was needed and the policy allows an empty one. */
  predicate Captured(p: Policy, r: Response)
  {
    r.capture.CaptureComplete? || (r.capture.CaptureNotNeeded? && p.allowEmptyBody && r.body == Some([]))
  }

  /** The response ended as a response of a known class and status, with all of its body. */
  predicate Usable(p: Policy, r: Response)
  {
    && r.execution.HttpResponse? && (r.contract.Success? || r.contract.ExpectedRejection?)
    && r.status.Some? && r.bodyComplete && Captured(p, r)
  }

  /** The two requests are known to be the same, for the same caller, on comparable data. */
  predicate Certain(c: Context)
  {
    c == Context(Some(true), Some(true), Some(true))
  }

  /** No precondition fails exactly when both responses are usable and the context is certain. */
  lemma LadderIsClear(p: Policy, v1: Response, v2: Response, c: Context)
    ensures Ladder(p, v1, v2, c).None? <==> Usable(p, v1) && Usable(p, v2) && Certain(c)
  {
  }

  /** How grave a refusal is: a request that was not sent, one that failed, one that cannot be compared. */
  function Gravity(kind: Kind): nat
  {
    match kind case NotExecuted => 2 case ExecutionError => 1 case NotComparable => 0
  }

  /** The kind of refusal that each response alone, or the context, gives cause for. */
  ghost predicate GivesCause(p: Policy, v1: Response, v2: Response, c: Context, kind: Kind)
  {
    match kind
    case NotExecuted => v1.execution.NotDispatched? || v2.execution.NotDispatched?
    case ExecutionError => Failed(v1).Some? || Failed(v2).Some?
    case NotComparable => !(Usable(p, v1) && Usable(p, v2) && Certain(c))
  }

  /**
   A refusal is of the gravest kind that there is cause for; and between two failures, or two unusable
   responses, the one reported is that of v1, whatever is wrong with v2 or with the context.
   */
  lemma LadderIsOrdered(p: Policy, v1: Response, v2: Response, c: Context)
    requires Ladder(p, v1, v2, c).Some?
    ensures
      var refusal := Ladder(p, v1, v2, c).value;
      && GivesCause(p, v1, v2, c, refusal.kind)
      && (forall kind :: GivesCause(p, v1, v2, c, kind) ==> Gravity(kind) <= Gravity(refusal.kind))
      && (refusal.kind.ExecutionError? && Failed(v1).Some? ==> Some(refusal) == Failed(v1))
      && (refusal.kind.ExecutionError? && Failed(v1).None? ==> Some(refusal) == Failed(v2))
      && (refusal.kind.NotComparable? && v1.execution.HttpResponse? && v2.execution.HttpResponse? ==>
            if Unusable(p, v1).Some? then Some(refusal) == Unusable(p, v1)
            else if Unusable(p, v2).Some? then Some(refusal) == Unusable(p, v2)
            else !Certain(c) && Some(refusal) == Doubts(c))
  {
  }

  /** The documents to compare, or the refusal; an empty body of both sides is no document at all. */
  ghost function Documents(p: Policy, v1: Response, v2: Response, decode: Response -> Decoded, reader: Reader)
    : (Option<Refusal>, Json, Json)
  {
    match (decode(v1), decode(v2))
    case (Undecodable(reason), _) => (Some(Refusal(NotComparable, reason)), Null, Null)
    case (_, Undecodable(reason)) => (Some(Refusal(NotComparable, reason)), Null, Null)
    case (Plain(a), Plain(b)) =>
      if p.allowEmptyBody && a == [] && b == [] then (None, Null, Null)
      else
        match (Parse(p, reader, a), Parse(p, reader, b))
        case (Unparsable(reason), _) => (Some(Refusal(NotComparable, reason)), Null, Null)
        case (_, Unparsable(reason)) => (Some(Refusal(NotComparable, reason)), Null, Null)
        case (Document(x), Document(y)) => (None, x, y)
  }

  // ----- the metadata -----

  function Lower(s: string): string
  {
    seq(|s|, i requires 0 <= i < |s| => if 'A' <= s[i] <= 'Z' then (s[i] as int + 32) as char else s[i])
  }

  function HeaderValues(headers: seq<(string, string)>, name: string): seq<string>
  {
    if headers == [] then []
    else
      var (key, value) := headers[|headers| - 1];
      HeaderValues(headers[..|headers| - 1], name) + (if Lower(key) == Lower(name) then [value] else [])
  }

  predicate HeaderAgrees(v1: Response, v2: Response, name: string)
  {
    var left, right := HeaderValues(v1.headers, name), HeaderValues(v2.headers, name);
    left != [] && right != [] && left == right
  }

  /** The first index of a pair of status codes. */
  function PairAt(pairs: seq<(int, int)>, a: Option<int>, b: Option<int>): (r: Option<nat>)
    ensures r.Some? ==> r.value < |pairs| && a == Some(pairs[r.value].0) && b == Some(pairs[r.value].1)
    ensures r.None? ==> forall i :: 0 <= i < |pairs| ==> !(a == Some(pairs[i].0) && b == Some(pairs[i].1))
  {
    if pairs == [] then None
    else if a == Some(pairs[0].0) && b == Some(pairs[0].1) then Some(0)
    else
      var rest := PairAt(pairs[1..], a, b);
      if rest.Some? then Some(rest.value + 1) else None
  }

  function ClassEvents(v1: Response, v2: Response): seq<Event>
  {
    if v1.contract == v2.contract then [] else [Differs(Difference("@contract_class", ContractClassMismatch))]
  }

  function StatusEvents(p: Policy, rules: bool, v1: Response, v2: Response): seq<Event>
  {
    var pair := PairAt(p.statusEquivalences, v1.status, v2.status);
    if v1.status == v2.status then []
    else if rules && pair.Some? then [Applies(StatusPair(pair.value))]
    else [Differs(Difference("@status", StatusMismatch))]
  }

  function HeaderEvents(names: seq<string>, v1: Response, v2: Response): seq<Event>
  {
    if names == [] then []
    else
      var n := |names| - 1;
      HeaderEvents(names[..n], v1, v2)
      + (if HeaderAgrees(v1, v2, names[n]) then [] else [Differs(Difference("@header", RequiredHeaderMismatch))])
  }

  function MetaEvents(p: Policy, rules: bool, v1: Response, v2: Response): seq<Event>
  {
    ClassEvents(v1, v2) + StatusEvents(p, rules, v1, v2) + HeaderEvents(p.requiredHeaders, v1, v2)
  }

  /** The metadata agree: same class, same status or a registered pair, and every required header. */
  ghost predicate MetadataAgree(p: Policy, rules: bool, v1: Response, v2: Response)
  {
    && v1.contract == v2.contract
    && (v1.status == v2.status
        || (rules && exists i :: 0 <= i < |p.statusEquivalences|
                                 && v1.status == Some(p.statusEquivalences[i].0)
                                 && v2.status == Some(p.statusEquivalences[i].1)))
    && forall name :: name in p.requiredHeaders ==> HeaderAgrees(v1, v2, name)
  }

  lemma {:induction false} HeadersClean(names: seq<string>, v1: Response, v2: Response)
    ensures Clean(HeaderEvents(names, v1, v2)) <==> forall name :: name in names ==> HeaderAgrees(v1, v2, name)
    ensures RulesOf(HeaderEvents(names, v1, v2)) == {}
  {
    hide HeaderAgrees;
    if names != [] {
      var n := |names| - 1;
      HeadersClean(names[..n], v1, v2);
      assert names == names[..n] + [names[n]];
      assert forall e :: e in HeaderEvents(names, v1, v2) ==> e.Differs? || e in HeaderEvents(names[..n], v1, v2);
      if !HeaderAgrees(v1, v2, names[n]) {
        assert Differs(Difference("@header", RequiredHeaderMismatch)) in HeaderEvents(names, v1, v2);
      }
    }
  }

  lemma MetadataClean(p: Policy, rules: bool, v1: Response, v2: Response)
    ensures Clean(MetaEvents(p, rules, v1, v2)) <==> MetadataAgree(p, rules, v1, v2)
  {
    hide HeaderEvents, HeaderAgrees;
    HeadersClean(p.requiredHeaders, v1, v2);
    var a, b, c := ClassEvents(v1, v2), StatusEvents(p, rules, v1, v2), HeaderEvents(p.requiredHeaders, v1, v2);
    CleanAppend(a, b);
    CleanAppend(a + b, c);
    assert Clean(a) <==> v1.contract == v2.contract by {
      assert v1.contract != v2.contract ==> a[0] in a;
    }
    assert Clean(b) <==> v1.status == v2.status || (rules && PairAt(p.statusEquivalences, v1.status, v2.status).Some?) by {
      assert b != [] ==> b[0] in b;
    }
  }

  // ----- the records -----

  /** The record and the rules after the metadata and then the documents. */
  ghost function Recorded(
    p: Policy, rules: bool, v1: Response, v2: Response, left: Json, right: Json, applied: set<Rule>): (Summary, set<Rule>)
  {
    var meta := MetaEvents(p, rules, v1, v2);
    Play(p, AddAll(p, EMPTY, DifferencesOf(meta)), applied + RulesOf(meta), AllEvents(p, rules, left, right))
  }

  /** The result when no precondition fails. */
  ghost function Result(p: Policy, v1: Response, v2: Response, left: Json, right: Json): Outcome
    requires PathsDecode(p.mappings)
  {
    var mapped := MapFrom(right, MovesOf(p.mappings), 0, {});
    if mapped.None? then Unavailable(Refusal(NotComparable, "policy_mapping_conflict"))
    else
      var raw := Recorded(p, false, v1, v2, left, right, {}).0;
      var (record, applied) := Recorded(p, true, v1, v2, left, mapped.value.0, mapped.value.1);
      Compared(record.count == 0, if v1.contract == v2.contract then Of(v1.contract) else Mixed,
               record, raw.count, raw.limited, applied)
  }

  ghost function Verdict(
    p: Policy, v1: Response, v2: Response, c: Context, decode: Response -> Decoded, reader: Reader): Outcome
    requires PathsDecode(p.mappings)
  {
    if !RolesOk(v1, v2) then RolesInvalid
    else if Ladder(p, v1, v2, c).Some? then Unavailable(Ladder(p, v1, v2, c).value)
    else
      var (refusal, left, right) := Documents(p, v1, v2, decode, reader);
      if refusal.Some? then Unavailable(refusal.value) else Result(p, v1, v2, left, right)
  }

  predicate RolesOk(v1: Response, v2: Response)
  {
    v1.isV1 && v2.isV2 && ((v1.role.Serving? && v2.role.ShadowRole?) || (v1.role.ShadowRole? && v2.role.Serving?))
  }

  lemma {:induction false} AddAllAppend(p: Policy, s: Summary, ds: seq<Difference>, more: seq<Difference>)
    ensures AddAll(p, s, ds + more) == AddAll(p, AddAll(p, s, ds), more)
    decreases |more|
  {
    if more == [] {
      assert ds + more == ds;
    } else {
      assert (ds + more)[..|ds + more| - 1] == ds + more[..|more| - 1];
      AddAllAppend(p, s, ds, more[..|more| - 1]);
    }
  }

  lemma {:induction false} AddAllReached(p: Policy, ds: seq<Difference>)
    ensures Reached(p, AddAll(p, EMPTY, ds))
  {
    if ds != [] {
      AddAllReached(p, ds[..|ds| - 1]);
    }
  }

  /** The record describes all differences, those of the metadata before those of the documents. */
  lemma RecordedDescribes(
    p: Policy, rules: bool, v1: Response, v2: Response, left: Json, right: Json, applied: set<Rule>)
    requires p.maxDifferences > 0
    ensures
      var ds := DifferencesOf(MetaEvents(p, rules, v1, v2)) + DifferencesOf(AllEvents(p, rules, left, right));
      Describes(p, Recorded(p, rules, v1, v2, left, right, applied).0, ds)
  {
    hide AllEvents, MetaEvents, Describes, Play, AddAll, DifferencesOf;
    var meta, es := MetaEvents(p, rules, v1, v2), AllEvents(p, rules, left, right);
    AddAllReached(p, DifferencesOf(meta));
    PlayRecords(p, AddAll(p, EMPTY, DifferencesOf(meta)), applied + RulesOf(meta), es);
    AddAllAppend(p, EMPTY, DifferencesOf(meta), DifferencesOf(es));
    RecordDescribes(p, DifferencesOf(meta) + DifferencesOf(es));
  }

  lemma RecordedIsEmptyIffAgree(
    p: Policy, rules: bool, v1: Response, v2: Response, left: Json, right: Json, applied: set<Rule>)
    requires p.maxDifferences > 0 && Comparable(p, left) && Comparable(p, right)
    ensures Recorded(p, rules, v1, v2, left, right, applied).0.count == 0 <==>
              MetadataAgree(p, rules, v1, v2) && Agree(p, rules, "", left, right)
  {
    hide AllEvents, MetaEvents, Play, AddAll, Agree, Comparable, MetadataAgree, Recorded;
    RecordedDescribes(p, rules, v1, v2, left, right, applied);
    NoDifferencesIffClean(MetaEvents(p, rules, v1, v2));
    NoDifferencesIffClean(AllEvents(p, rules, left, right));
    MetadataClean(p, rules, v1, v2);
    DocumentsClean(p, rules, left, right);
  }

  lemma DocumentsClean(p: Policy, rules: bool, left: Json, right: Json)
    requires Comparable(p, left) && Comparable(p, right)
    ensures Clean(AllEvents(p, rules, left, right)) <==> Agree(p, rules, "", left, right)
  {
    hide Agree, Events, Comparable;
    CleanIffAgree(p, rules, "", left, right);
  }

  lemma DocumentsAreComparable(p: Policy, v1: Response, v2: Response, decode: Response -> Decoded, reader: Reader)
    requires p.limits.digits >= 1
    ensures
      var (refusal, left, right) := Documents(p, v1, v2, decode, reader);
      refusal.None? ==> Comparable(p, left) && Comparable(p, right)
  {
    hide Parse, Comparable;
    if decode(v1).Plain? && decode(v2).Plain? {
      var a, b := decode(v1).bytes, decode(v2).bytes;
      if Parse(p, reader, a).Document? && Parse(p, reader, b).Document? {
        ParsedIsComparable(p, reader, a);
        ParsedIsComparable(p, reader, b);
      }
    }
    NothingIsComparable(p);
  }

  lemma NothingIsComparable(p: Policy)
    requires p.limits.digits >= 1
    ensures Comparable(p, Null)
  {
  }

  /**
   The verdict is `matched` exactly when every precondition holds, both bodies can be read, the
   mappings do not conflict, the metadata agree, and the mapped documents agree under the policy.
   */
  lemma MatchedExactly(
    p: Policy, v1: Response, v2: Response, c: Context, decode: Response -> Decoded, reader: Reader)
    requires PolicyOk(p)
    ensures
      var r := Verdict(p, v1, v2, c, decode, reader);
      var (refusal, left, right) := Documents(p, v1, v2, decode, reader);
      var mapped := MapFrom(right, MovesOf(p.mappings), 0, {});
      (r.Compared? && r.matched) <==>
        && RolesOk(v1, v2) && Usable(p, v1) && Usable(p, v2) && Certain(c) && refusal.None? && mapped.Some?
        && MetadataAgree(p, true, v1, v2) && Agree(p, true, "", left, mapped.value.0)
  {
    hide Agree, Comparable, MetadataAgree, Recorded, Ladder, Usable, MapFrom, NoOverlap;
    LadderIsClear(p, v1, v2, c);
    var (refusal, left, right) := Documents(p, v1, v2, decode, reader);
    DocumentsAreComparable(p, v1, v2, decode, reader);
    var mapped := MapFrom(right, MovesOf(p.mappings), 0, {});
    if refusal.None? && mapped.Some? {
      MapFromIsComparable(p, right, MovesOf(p.mappings), 0, {});
      RecordedIsEmptyIffAgree(p, true, v1, v2, left, mapped.value.0, mapped.value.1);
    }
  }

  /** The raw counts describe the comparison before any mapping, ignoring and tolerance. */
  lemma RawCountsDescribe(p: Policy, v1: Response, v2: Response, left: Json, right: Json)
    requires PolicyOk(p) && Result(p, v1, v2, left, right).Compared?
    ensures
      var r := Result(p, v1, v2, left, right);
      var all := |DifferencesOf(MetaEvents(p, false, v1, v2))| + |DifferencesOf(AllEvents(p, false, left, right))|;
      r.rawCount == (if all <= p.maxDifferences then all else p.maxDifferences) && r.rawLimited == (all > p.maxDifferences)
  {
    hide AllEvents, MetaEvents, MapFrom, Recorded;
    RecordedDescribes(p, false, v1, v2, left, right, {});
  }

  /** Two responses whose documents differ only in renamed fields match, whatever the order of their keys. */
  lemma RenamedResponsesMatch(p: Policy, v1: Response, v2: Response, left: Json, right: Json)
    requires PolicyOk(p) && Comparable(p, left) && Comparable(p, right) && MetadataAgree(p, true, v1, v2)
    requires FM.MoveAll(Trees.Erase(left), Renames(p.mappings)) == Some(Trees.Erase(right))
    ensures
      var r := Result(p, v1, v2, left, right);
      r.Compared? && r.matched
  {
    hide Agree, Comparable, MetadataAgree, Recorded, MapFrom, NoOverlap;
    RenamedDocumentsAgree(p, left, right, {});
    var mapped := MapFrom(right, MovesOf(p.mappings), 0, {});
    MapFromIsComparable(p, right, MovesOf(p.mappings), 0, {});
    RecordedIsEmptyIffAgree(p, true, v1, v2, left, mapped.value.0, mapped.value.1);
  }

  // ----- the engine's methods -----

  /** `_compare_metadata`: records the mismatches and returns the class of the comparison. */
  method CompareMetadata(v1: Response, v2: Response, record: DifferenceRecord, rules: bool, applied: set<Rule>)
    returns (class_: Class, applied': set<Rule>)
    modifies record
    ensures class_ == if v1.contract == v2.contract then Of(v1.contract) else Mixed
    ensures record.Content() ==
              AddAll(record.policy, old(record.Content()), DifferencesOf(MetaEvents(record.policy, rules, v1, v2)))
    ensures applied' == applied + RulesOf(MetaEvents(record.policy, rules, v1, v2))
  {
    hide AddTo, AddAll, DifferencesOf, RulesOf, HeaderAgrees, HeaderValues, MetaUpTo, Lower;
    var p := record.policy;
    class_ := if v1.contract == v2.contract then Of(v1.contract) else Mixed;
    applied' := CompareStatus(v1, v2, record, rules, applied);
    var n := 0;
    while n < |p.requiredHeaders|
      invariant 0 <= n <= |p.requiredHeaders| && record.policy == p
      invariant record.Content() == AddAll(p, old(record.Content()), DifferencesOf(MetaUpTo(p, rules, v1, v2, n)))
      invariant applied' == applied + RulesOf(MetaUpTo(p, rules, v1, v2, n))
    {
      HeaderRecorded(p, rules, v1, v2, n, old(record.Content()));
      CompareHeader(v1, v2, record, p.requiredHeaders[n]);
      n := n + 1;
    }
    AllHeaders(p, rules, v1, v2);
  }

  /** The class and the status, before any header. */
  method CompareStatus(v1: Response, v2: Response, record: DifferenceRecord, rules: bool, applied: set<Rule>)
    returns (applied': set<Rule>)
    modifies record
    ensures record.Content() ==
              AddAll(record.policy, old(record.Content()), DifferencesOf(MetaUpTo(record.policy, rules, v1, v2, 0)))
    ensures applied' == applied + RulesOf(MetaUpTo(record.policy, rules, v1, v2, 0))
  {
    hide AddTo, AddAll, DifferencesOf, RulesOf, MetaUpTo, PairAt;
    var p := record.policy;
    applied' := applied;
    StartRecorded(p, rules, v1, v2, record.Content(), applied);
    if v1.contract != v2.contract {
      record.Add("@contract_class", ContractClassMismatch);
    }
    if v1.status != v2.status {
      var pair := PairAt(p.statusEquivalences, v1.status, v2.status);
      if rules && pair.Some? {
        applied' := applied + {StatusPair(pair.value)};
      } else {
        record.Add("@status", StatusMismatch);
      }
    }
  }

  /** One required header. */
  method CompareHeader(v1: Response, v2: Response, record: DifferenceRecord, name: string)
    modifies record
    ensures record.Content() ==
              if HeaderAgrees(v1, v2, name) then old(record.Content())
              else AddTo(record.policy, old(record.Content()), "@header", RequiredHeaderMismatch)
  {
    hide AddTo, HeaderValues;
    var left, right := HeaderValues(v1.headers, name), HeaderValues(v2.headers, name);
    if left == [] || right == [] || left != right {
      record.Add("@header", RequiredHeaderMismatch);
    }
  }

  lemma AllHeaders(p: Policy, rules: bool, v1: Response, v2: Response)
    ensures MetaUpTo(p, rules, v1, v2, |p.requiredHeaders|) == MetaEvents(p, rules, v1, v2)
  {
    hide ClassEvents, StatusEvents, HeaderEvents;
    assert p.requiredHeaders[..|p.requiredHeaders|] == p.requiredHeaders;
  }

  /** The metadata events with the first required headers only. */
  function MetaUpTo(p: Policy, rules: bool, v1: Response, v2: Response, n: nat): seq<Event>
    requires n <= |p.requiredHeaders|
  {
    ClassEvents(v1, v2) + StatusEvents(p, rules, v1, v2) + HeaderEvents(p.requiredHeaders[..n], v1, v2)
  }

  lemma {:induction false} DifferencesAppend(es: seq<Event>, more: seq<Event>)
    ensures DifferencesOf(es + more) == DifferencesOf(es) + DifferencesOf(more)
  {
    if more == [] {
      assert es + more == es;
    } else {
      assert (es + more)[..|es + more| - 1] == es + more[..|more| - 1];
      DifferencesAppend(es, more[..|more| - 1]);
    }
  }

  lemma RulesAppend(es: seq<Event>, more: seq<Event>)
    ensures RulesOf(es + more) == RulesOf(es) + RulesOf(more)
  {
    assert forall e :: e in es + more <==> e in es || e in more;
  }

  lemma OneEvent(e: Event)
    ensures DifferencesOf([e]) == if e.Differs? then [e.difference] else []
    ensures RulesOf([e]) == if e.Applies? then {e.rule} else {}
  {
    assert [e][..0] == [];
    assert DifferencesOf([e][..0]) == [];
    assert e in [e];
  }

  /** The record and the rules before the first header. */
  lemma StartRecorded(p: Policy, rules: bool, v1: Response, v2: Response, s: Summary, applied: set<Rule>)
    ensures
      var s1 := if v1.contract == v2.contract then s else AddTo(p, s, "@contract_class", ContractClassMismatch);
      var pair := PairAt(p.statusEquivalences, v1.status, v2.status);
      var suppressed := v1.status != v2.status && rules && pair.Some?;
      && AddAll(p, s, DifferencesOf(MetaUpTo(p, rules, v1, v2, 0))) ==
           (if v1.status == v2.status || suppressed then s1 else AddTo(p, s1, "@status", StatusMismatch))
      && applied + RulesOf(MetaUpTo(p, rules, v1, v2, 0)) == applied + (if suppressed then {StatusPair(pair.value)} else {})
  {
    hide AddTo, AddAll, DifferencesOf, RulesOf, ClassEvents, StatusEvents, PairAt;
    var a, b := ClassEvents(v1, v2), StatusEvents(p, rules, v1, v2);
    NoHeadersYet(p, rules, v1, v2);
    DifferencesAppend(a, b);
    RulesAppend(a, b);
    AddAllAppend(p, s, DifferencesOf(a), DifferencesOf(b));
    ClassRecorded(p, v1, v2, s);
    StatusRecorded(p, rules, v1, v2, AddAll(p, s, DifferencesOf(a)));
  }

  lemma NoHeadersYet(p: Policy, rules: bool, v1: Response, v2: Response)
    ensures MetaUpTo(p, rules, v1, v2, 0) == ClassEvents(v1, v2) + StatusEvents(p, rules, v1, v2)
  {
    hide ClassEvents, StatusEvents;
    assert p.requiredHeaders[..0] == [];
  }

  lemma ClassRecorded(p: Policy, v1: Response, v2: Response, s: Summary)
    ensures AddAll(p, s, DifferencesOf(ClassEvents(v1, v2))) ==
              if v1.contract == v2.contract then s else AddTo(p, s, "@contract_class", ContractClassMismatch)
    ensures RulesOf(ClassEvents(v1, v2)) == {}
  {
    hide AddTo, AddAll, DifferencesOf, RulesOf;
    AtMostOne(p, s, ClassEvents(v1, v2));
  }

  lemma StatusRecorded(p: Policy, rules: bool, v1: Response, v2: Response, s: Summary)
    ensures
      var pair := PairAt(p.statusEquivalences, v1.status, v2.status);
      var suppressed := v1.status != v2.status && rules && pair.Some?;
      && AddAll(p, s, DifferencesOf(StatusEvents(p, rules, v1, v2))) ==
           (if v1.status == v2.status || suppressed then s else AddTo(p, s, "@status", StatusMismatch))
      && RulesOf(StatusEvents(p, rules, v1, v2)) == if suppressed then {StatusPair(pair.value)} else {}
  {
    hide AddTo, AddAll, DifferencesOf, RulesOf, PairAt;
    AtMostOne(p, s, StatusEvents(p, rules, v1, v2));
  }

  lemma AtMostOne(p: Policy, s: Summary, es: seq<Event>)
    requires |es| <= 1
    ensures AddAll(p, s, DifferencesOf(es)) ==
              if es == [] || es[0].Applies? then s else AddTo(p, s, es[0].difference.path, es[0].difference.reason)
    ensures RulesOf(es) == if es != [] && es[0].Applies? then {es[0].rule} else {}
  {
    hide AddTo;
    if es != [] {
      assert es == [es[0]];
      OneEvent(es[0]);
      if es[0].Differs? {
        AddAllSnoc(p, s, [], es[0].difference);
        assert [] + [es[0].difference] == [es[0].difference];
      }
    }
  }

  lemma HeaderRecorded(p: Policy, rules: bool, v1: Response, v2: Response, n: nat, s: Summary)
    requires n < |p.requiredHeaders|
    ensures
      var before, after := MetaUpTo(p, rules, v1, v2, n), MetaUpTo(p, rules, v1, v2, n + 1);
      && RulesOf(after) == RulesOf(before)
      && AddAll(p, s, DifferencesOf(after)) ==
           (var r := AddAll(p, s, DifferencesOf(before));
            if HeaderAgrees(v1, v2, p.requiredHeaders[n]) then r else AddTo(p, r, "@header", RequiredHeaderMismatch))
  {
    hide HeaderAgrees, AddTo, ClassEvents, StatusEvents;
    var before, after := MetaUpTo(p, rules, v1, v2, n), MetaUpTo(p, rules, v1, v2, n + 1);
    var e := Differs(Difference("@header", RequiredHeaderMismatch));
    assert p.requiredHeaders[..n + 1][..n] == p.requiredHeaders[..n];
    if HeaderAgrees(v1, v2, p.requiredHeaders[n]) {
      assert after == before;
    } else {
      assert after == before + [e];
      DifferencesAppend(before, [e]);
      RulesAppend(before, [e]);
      OneEvent(e);
      AddAllSnoc(p, s, DifferencesOf(before), e.difference);
    }
  }

  /** `compare`: the ladder, the raw record before the mappings, and the normalised record after them. */
  method CompareResponses(
    p: Policy, v1: Response, v2: Response, c: Context, decode: Response -> Decoded, reader: Reader)
    returns (r: Outcome)
    requires PolicyOk(p)
    ensures r == Verdict(p, v1, v2, c, decode, reader)
  {
    hide MetaEvents, Events, DifferencesOf, RulesOf, Play, AddAll, MapFrom, Failed, Unusable, Doubts, Ladder,
      Documents;
    if !RolesOk(v1, v2) {
      return RolesInvalid;
    }
    var refused := FindRefusal(p, v1, v2, c);
    if refused.Some? {
      return Unavailable(refused.value);
    }
    var refusal, left, right := ReadDocuments(p, v1, v2, decode, reader);
    if refusal.Some? {
      return Unavailable(refusal.value);
    }
    var raw := new DifferenceRecord(p);
    var _, rawRules := CompareMetadata(v1, v2, raw, false, {});
    var _ := WalkPair(left, right, raw, false, rawRules);
    var rawCount, rawLimited := raw.count, raw.limited;
    assert Recorded(p, false, v1, v2, left, right, {}).0 == raw.Content() by { NoStatusRule(p, v1, v2); }
    var mapped := MapFields(right, MovesOf(p.mappings), {});
    if mapped.None? {
      return Unavailable(Refusal(NotComparable, "policy_mapping_conflict"));
    }
    var differences := new DifferenceRecord(p);
    var class_, applied := CompareMetadata(v1, v2, differences, true, mapped.value.1);
    applied := WalkPair(left, mapped.value.0, differences, true, applied);
    return Compared(differences.count == 0, class_, differences.Content(), rawCount, rawLimited, applied);
  }

  /** Both bodies are decoded before either is parsed. */
  method ReadDocuments(p: Policy, v1: Response, v2: Response, decode: Response -> Decoded, reader: Reader)
    returns (refusal: Option<Refusal>, left: Json, right: Json)
    ensures (refusal, left, right) == Documents(p, v1, v2, decode, reader)
  {
    hide Parse;
    var bodies := [decode(v1), decode(v2)];
    for i := 0 to 2
      invariant i > 0 ==> decode(v1).Plain?
      invariant i > 1 ==> decode(v2).Plain?
    {
      if bodies[i].Undecodable? {
        return Some(Refusal(NotComparable, bodies[i].reason)), Null, Null;
      }
    }
    if p.allowEmptyBody && bodies[0].bytes == [] && bodies[1].bytes == [] {
      return None, Null, Null;
    }
    var first := ParseBody(p, reader, bodies[0].bytes);
    if first.Unparsable? {
      return Some(Refusal(NotComparable, first.reason)), Null, Null;
    }
    var second := ParseBody(p, reader, bodies[1].bytes);
    if second.Unparsable? {
      return Some(Refusal(NotComparable, second.reason)), Null, Null;
    }
    return None, first.json, second.json;
  }

  /** Without rules the metadata suppress nothing. */
  lemma NoStatusRule(p: Policy, v1: Response, v2: Response)
    ensures RulesOf(MetaEvents(p, false, v1, v2)) == {}
  {
    hide HeaderEvents;
    HeadersClean(p.requiredHeaders, v1, v2);
    RulesAppend(ClassEvents(v1, v2), StatusEvents(p, false, v1, v2));
    RulesAppend(ClassEvents(v1, v2) + StatusEvents(p, false, v1, v2), HeaderEvents(p.requiredHeaders, v1, v2));
  }

  /** The tests of both responses and of the context, in the source's order. */
  method FindRefusal(p: Policy, v1: Response, v2: Response, c: Context) returns (refused: Option<Refusal>)
    ensures refused == Ladder(p, v1, v2, c)
  {
    hide Failed, Unusable, Doubts;
    var responses := [v1, v2];
    if v1.execution.NotDispatched? || v2.execution.NotDispatched? {
      return Some(Refusal(NotExecuted, "shadow_not_dispatched"));
    }
    for i := 0 to 2
      invariant i > 0 ==> Failed(v1).None?
      invariant i > 1 ==> Failed(v2).None?
    {
      if Failed(responses[i]).Some? {
        return Failed(responses[i]);
      }
    }
    if !v1.execution.HttpResponse? || !v2.execution.HttpResponse? {
      return Some(Refusal(NotComparable, "execution_outcome_unknown"));
    }
    for i := 0 to 2
      invariant i > 0 ==> Unusable(p, v1).None?
      invariant i > 1 ==> Unusable(p, v2).None?
    {
      if Unusable(p, responses[i]).Some? {
        return Unusable(p, responses[i]);
      }
    }
    return Doubts(c);
  }
}
