/** A response body made into a document, within the limits on depth, numbers, keys and nodes. */
module Parser {
  import opened Options
  import opened Json
  import opened Decimals
  import opened Indices
  import opened Differences
  import Agreement
  import Totals
  import N = Nodes
  import S = Scanner

  type JsonNumber = n: S.Number | S.NumberOk(n) witness S.Number(false, "0", "", "")

  /**
   What the JSON reader of the standard library finds in a text, in the order in which it finds it;
   it gives up at `Broken`.
   */
  datatype Raw =
    | RawNull
    | RawBool(b: bool)
    | RawNumber(number: JsonNumber)
    | RawConstant
    | RawString(text: string)
    | RawArray(items: seq<Raw>)
    | RawObject(members: seq<Named<Raw>>)
    | Broken

  /** A member of an object. */
  datatype Named<T> = Named(name: string, value: T)

  /** The outermost value, and whether other text follows it. */
  datatype Found = Found(value: Raw, trailing: bool)

  /** The UTF-8 decoder, the reader, and which numbers the decimal type can hold. */
  datatype Reader = Reader(decode: Bytes -> Option<string>, loads: string -> Found, holds: JsonNumber -> bool)

  datatype Parsed = Document(json: Json) | Unparsable(reason: string)

  // ----- numbers -----

  /** What comes before the first occurrence of a character. */
  function Before(text: string, c: char): string
  {
    if text == "" || text[0] == c then "" else [text[0]] + Before(text[1..], c)
  }

  function DigitCount(text: string): nat
  {
    if text == "" then 0
    else DigitCount(text[..|text| - 1]) + (if S.Digit(text[|text| - 1]) then 1 else 0)
  }

  function FractionDigits(n: JsonNumber): string
  {
    if n.fraction == "" then "" else n.fraction[1..]
  }

  function ExponentOf(e: string): int
    requires S.ExponentOk(e)
  {
    if e == "" then 0
    else if e[1] == '-' then 0 - NatOf(e[2..])
    else if e[1] == '+' then NatOf(e[2..])
    else NatOf(e[1..])
  }

  /** `Decimal(value)`: exact, with the exponent of the last digit. */
  function ValueOf(n: JsonNumber): Dec
  {
    var coef: int := NatOf(n.whole + FractionDigits(n));
    Dec(if n.minus then -coef else coef, ExponentOf(n.exponent) - |FractionDigits(n)|)
  }

  datatype Built = Built(json: Json) | Refused(reason: string)

  /** The hook for numbers: the digits before the exponent, the conversion, and the limits on the result. */
  function ReadNumber(p: Policy, holds: JsonNumber -> bool, n: JsonNumber): Built
  {
    if DigitCount(Before(Before(S.NumberText(n), 'e'), 'E')) > p.limits.digits then Refused("json_number_limit")
    else if !holds(n) then Refused("json_number_invalid")
    else if !WithinLimits(ValueOf(n), p.limits) then Refused("json_number_limit")
    else Built(Num(ValueOf(n)))
  }

  lemma {:induction false} NothingBefore(a: string, b: string, c: char)
    requires c !in a
    ensures Before(a + b, c) == a + Before(b, c)
  {
    if a == "" {
      assert a + b == b;
    } else {
      assert (a + b)[1..] == a[1..] + b;
      NothingBefore(a[1..], b, c);
    }
  }

  lemma {:induction false} AllOfThem(s: string)
    requires forall i :: 0 <= i < |s| ==> S.Digit(s[i])
    ensures DigitCount(s) == |s|
  {
    if s != "" {
      AllOfThem(s[..|s| - 1]);
    }
  }

  lemma {:induction false} DigitCountAppend(a: string, b: string)
    ensures DigitCount(a + b) == DigitCount(a) + DigitCount(b)
  {
    if b == "" {
      assert a + b == a;
    } else {
      assert (a + b)[..|a + b| - 1] == a + b[..|b| - 1];
      DigitCountAppend(a, b[..|b| - 1]);
    }
  }

  /** What is before the exponent: the sign, the whole part and the fraction. */
  lemma MantissaOf(n: JsonNumber)
    ensures Before(Before(S.NumberText(n), 'e'), 'E') == (if n.minus then "-" else "") + n.whole + n.fraction
  {
    var m := (if n.minus then "-" else "") + n.whole + n.fraction;
    assert 'e' !in m && 'E' !in m by {
      assert forall i :: 0 <= i < |n.fraction| ==> n.fraction[i] == '.' || S.Digit(n.fraction[i]) by {
        assert n.fraction != "" ==> forall i :: 1 <= i < |n.fraction| ==> n.fraction[i] == n.fraction[1..][i - 1];
      }
    }
    assert S.NumberText(n) == m + n.exponent;
    NothingBefore(m, n.exponent, 'e');
    ExponentMark(n.exponent);
    var rest := Before(n.exponent, 'e');
    NothingBefore(m, rest, 'E');
    assert m + "" == m;
  }

  lemma ExponentMark(e: string)
    requires S.ExponentOk(e)
    ensures Before(Before(e, 'e'), 'E') == ""
  {
    if e != "" && e[0] == 'E' {
      assert Before(e, 'e') == [e[0]] + Before(e[1..], 'e');
    }
  }

  /** The digits that are counted are those of the whole part and of the fraction, leading noughts included. */
  lemma CountedDigits(n: JsonNumber)
    ensures DigitCount(Before(Before(S.NumberText(n), 'e'), 'E')) == |n.whole + FractionDigits(n)|
  {
    hide Before;
    MantissaOf(n);
    var sign := if n.minus then "-" else "";
    DigitCountAppend(sign + n.whole, n.fraction);
    DigitCountAppend(sign, n.whole);
    AllOfThem(n.whole);
    assert DigitCount(sign) == 0 by { assert "-"[..0] == ""; assert DigitCount("-"[..0]) == 0; }
    if n.fraction != "" {
      assert n.fraction == "." + FractionDigits(n);
      DigitCountAppend(".", FractionDigits(n));
      AllOfThem(FractionDigits(n));
      assert DigitCount(".") == 0 by { assert "."[..0] == ""; assert DigitCount("."[..0]) == 0; }
    }
  }

  lemma {:induction false} NatOfIsShort(s: string)
    requires forall i :: 0 <= i < |s| ==> IsDigit(s[i])
    ensures NatOf(s) < Pow10(|s|)
  {
    if s != "" {
      NatOfIsShort(s[..|s| - 1]);
    }
  }

  lemma DigitsOf(n: JsonNumber)
    ensures Digits(Abs(ValueOf(n).coef)) <= |n.whole + FractionDigits(n)|
  {
    hide NatOf, Digits;
    var ds := n.whole + FractionDigits(n);
    assert forall i :: 0 <= i < |ds| ==> IsDigit(ds[i]);
    NatOfIsShort(ds);
    DigitsBound(NatOf(ds), |ds|);
  }

  /**
   The hook accepts a number exactly when its written digits, the decimal type and its exponent allow
   it: once the written digits are few enough, the digits of the value are no further test.
   */
  lemma NumbersAreAccepted(p: Policy, holds: JsonNumber -> bool, n: JsonNumber)
    ensures ReadNumber(p, holds, n) == Built(Num(ValueOf(n))) <==>
              && |n.whole + FractionDigits(n)| <= p.limits.digits && holds(n)
              && Abs(ExponentOf(n.exponent) - |FractionDigits(n)|) <= p.limits.exponent
  {
    hide Digits, NatOf, DigitCount, Before;
    CountedDigits(n);
    DigitsOf(n);
  }

  // ----- documents -----

  datatype Items = Items(values: seq<Json>) | BadItem(reason: string)

  datatype Members = Members(pairs: seq<Named<Json>>) | BadMember(reason: string)

  function Names<T>(pairs: seq<Named<T>>): (names: seq<string>)
    ensures |names| == |pairs| && forall i :: 0 <= i < |pairs| ==> names[i] == pairs[i].name
  {
    seq(|pairs|, i requires 0 <= i < |pairs| => pairs[i].name)
  }

  function FieldsOf(pairs: seq<Named<Json>>): (fields: map<string, Json>)
    ensures forall k :: k in fields <==> k in Names(pairs)
  {
    if pairs == [] then map[]
    else
      var n := |pairs| - 1;
      assert Names(pairs) == Names(pairs[..n]) + [pairs[n].name];
      FieldsOf(pairs[..n])[pairs[n].name := pairs[n].value]
  }

  /** The dictionary of an object, unless a key occurs twice. */
  function MakeObject(pairs: seq<Named<Json>>): Built
  {
    if NoDuplicates(Names(pairs)) then Built(Obj(Names(pairs), FieldsOf(pairs))) else Refused("json_duplicate_key")
  }

  /** The document, or the first complaint of the reader or of a hook, in the order of the text. */
  function Build(p: Policy, holds: JsonNumber -> bool, raw: Raw): Built
    decreases raw, 0, 0
  {
    match raw
    case RawNull => Built(Null)
    case RawBool(b) => Built(Bool(b))
    case RawNumber(n) => ReadNumber(p, holds, n)
    case RawConstant => Refused("json_number_invalid")
    case RawString(text) => Built(Str(text))
    case RawArray(items) => (
      match BuildItems(p, holds, items)
      case Items(values) => Built(Arr(values))
      case BadItem(reason) => Refused(reason)
    )
    case RawObject(members) => (
      match BuildMembers(p, holds, members)
      case Members(pairs) => MakeObject(pairs)
      case BadMember(reason) => Refused(reason)
    )
    case Broken => Refused("json_parse_error")
  }

  function BuildItems(p: Policy, holds: JsonNumber -> bool, items: seq<Raw>): Items
    decreases items, 1, |items|
  {
    if items == [] then Items([])
    else
      var before := BuildItems(p, holds, items[..|items| - 1]);
      if before.BadItem? then before
      else
        match Build(p, holds, items[|items| - 1])
        case Built(json) => Items(before.values + [json])
        case Refused(reason) => BadItem(reason)
  }

  function BuildMembers(p: Policy, holds: JsonNumber -> bool, members: seq<Named<Raw>>): Members
    decreases members, 1, |members|
  {
    if members == [] then Members([])
    else
      var before := BuildMembers(p, holds, members[..|members| - 1]);
      if before.BadMember? then before
      else
        match Build(p, holds, members[|members| - 1].value)
        case Built(json) => Members(before.pairs + [Named(members[|members| - 1].name, json)])
        case Refused(reason) => BadMember(reason)
  }

  // ----- which texts have a document, and which one -----

  /** No syntax error, no constant, no number beyond the limits, and no key twice in one object. */
  ghost predicate Acceptable(p: Policy, holds: JsonNumber -> bool, raw: Raw)
  {
    match raw
    case RawNumber(n) =>
      && |n.whole + FractionDigits(n)| <= p.limits.digits && holds(n)
      && Abs(ExponentOf(n.exponent) - |FractionDigits(n)|) <= p.limits.exponent
    case RawArray(items) => forall i :: 0 <= i < |items| ==> Acceptable(p, holds, items[i])
    case RawObject(members) =>
      NoDuplicates(Names(members)) && forall i :: 0 <= i < |members| ==> Acceptable(p, holds, members[i].value)
    case RawConstant => false
    case Broken => false
    case _ => true
  }

  /** The document is what the text says: the same values in the same places, under the same keys. */
  ghost predicate Denotes(raw: Raw, json: Json)
  {
    match (raw, json)
    case (RawNull, Null) => true
    case (RawBool(b), Bool(c)) => b == c
    case (RawNumber(n), Num(dec)) => dec == ValueOf(n)
    case (RawString(s), Str(text)) => s == text
    case (RawArray(items), Arr(values)) =>
      |items| == |values| && forall i :: 0 <= i < |items| ==> Denotes(items[i], values[i])
    case (RawObject(members), Obj(order, fields)) =>
      && order == Names(members)
      && forall i :: 0 <= i < |members| ==> members[i].name in fields && Denotes(members[i].value, fields[members[i].name])
    case _ => false
  }

  /** The number of values that a text writes, itself included. */
  function ValuesIn(raw: Raw): nat
    decreases raw, 0, 0
  {
    match raw
    case RawArray(items) => 1 + ValuesInItems(items)
    case RawObject(members) => 1 + ValuesInMembers(members)
    case _ => 1
  }

  function ValuesInItems(items: seq<Raw>): nat
    decreases items, 1, |items|
  {
    if items == [] then 0 else ValuesInItems(items[..|items| - 1]) + ValuesIn(items[|items| - 1])
  }

  function ValuesInMembers(members: seq<Named<Raw>>): nat
    decreases members, 1, |members|
  {
    if members == [] then 0 else ValuesInMembers(members[..|members| - 1]) + ValuesIn(members[|members| - 1].value)
  }

  /** What building a value must have made of it. */
  ghost predicate Faithful(p: Policy, raw: Raw, json: Json)
  {
    WellFormed(json) && NumbersWithin(json, p.limits) && Denotes(raw, json) && N.Size(json) == ValuesIn(raw)
  }

  /** A document is built exactly of an acceptable text, and is what the text says. */
  lemma {:induction false} BuildIsExact(p: Policy, holds: JsonNumber -> bool, raw: Raw)
    ensures Build(p, holds, raw).Built? <==> Acceptable(p, holds, raw)
    ensures Build(p, holds, raw).Built? ==> Faithful(p, raw, Build(p, holds, raw).json)
    decreases raw, 0, 0
  {
    hide Build, BuildItems, BuildMembers, Acceptable, Faithful, MakeObject;
    match raw
    case RawArray(items) =>
      ItemsAreExact(p, holds, items);
      ArrayIsExact(p, holds, items);
    case RawObject(members) =>
      MembersAreExact(p, holds, members);
      ObjectIsExact(p, holds, members);
    case _ => LeafIsExact(p, holds, raw);
  }

  lemma LeafIsExact(p: Policy, holds: JsonNumber -> bool, raw: Raw)
    requires !raw.RawArray? && !raw.RawObject?
    ensures Build(p, holds, raw).Built? <==> Acceptable(p, holds, raw)
    ensures Build(p, holds, raw).Built? ==> Faithful(p, raw, Build(p, holds, raw).json)
  {
    hide ValueOf, WithinLimits, DigitCount, Before, ExponentOf;
    if raw.RawNumber? {
      NumbersAreAccepted(p, holds, raw.number);
    }
  }

  ghost predicate ItemsFaithful(p: Policy, items: seq<Raw>, values: seq<Json>)
  {
    |values| == |items| && forall i :: 0 <= i < |items| ==> Faithful(p, items[i], values[i])
  }

  lemma {:induction false} ItemsAreExact(p: Policy, holds: JsonNumber -> bool, items: seq<Raw>)
    ensures BuildItems(p, holds, items).Items? <==> forall i :: 0 <= i < |items| ==> Acceptable(p, holds, items[i])
    ensures
      var built := BuildItems(p, holds, items);
      built.Items? ==>
        ItemsFaithful(p, items, built.values) && N.SizeOfSeq(N.Sizes(built.values)) == ValuesInItems(items)
    decreases items, 1, |items|
  {
    hide Build, Acceptable, Faithful;
    if items == [] {
      N.NothingPending();
    } else {
      var n := |items| - 1;
      ItemsAreExact(p, holds, items[..n]);
      BuildIsExact(p, holds, items[n]);
      var before, last := BuildItems(p, holds, items[..n]), Build(p, holds, items[n]);
      if before.Items? && last.Built? {
        N.Popped(before.values, last.json);
        assert N.Size(last.json) == ValuesIn(items[n]) by { SizeOfFaithful(p, items[n], last.json); }
      }
    }
  }

  lemma SizeOfFaithful(p: Policy, raw: Raw, json: Json)
    requires Faithful(p, raw, json)
    ensures N.Size(json) == ValuesIn(raw)
  {
  }

  lemma ArrayIsExact(p: Policy, holds: JsonNumber -> bool, items: seq<Raw>)
    requires BuildItems(p, holds, items).Items? <==> forall i :: 0 <= i < |items| ==> Acceptable(p, holds, items[i])
    requires
      var built := BuildItems(p, holds, items);
      built.Items? ==>
        ItemsFaithful(p, items, built.values) && N.SizeOfSeq(N.Sizes(built.values)) == ValuesInItems(items)
    ensures Build(p, holds, RawArray(items)).Built? <==> Acceptable(p, holds, RawArray(items))
    ensures
      var built := Build(p, holds, RawArray(items));
      built.Built? ==> Faithful(p, RawArray(items), built.json)
  {
    hide BuildItems, N.Size;
    var built := BuildItems(p, holds, items);
    if built.Items? {
      N.SizeOfArray(built.values);
    }
  }

  ghost predicate MembersFaithful(p: Policy, members: seq<Named<Raw>>, pairs: seq<Named<Json>>)
  {
    |pairs| == |members|
    && forall i :: 0 <= i < |members| ==> pairs[i].name == members[i].name && Faithful(p, members[i].value, pairs[i].value)
  }

  function Seconds(pairs: seq<Named<Json>>): (values: seq<Json>)
    ensures |values| == |pairs| && forall i :: 0 <= i < |pairs| ==> values[i] == pairs[i].value
  {
    seq(|pairs|, i requires 0 <= i < |pairs| => pairs[i].value)
  }

  lemma {:induction false} MembersAreExact(p: Policy, holds: JsonNumber -> bool, members: seq<Named<Raw>>)
    ensures BuildMembers(p, holds, members).Members? <==>
              forall i :: 0 <= i < |members| ==> Acceptable(p, holds, members[i].value)
    ensures
      var built := BuildMembers(p, holds, members);
      built.Members? ==>
        && MembersFaithful(p, members, built.pairs)
        && N.SizeOfSeq(N.Sizes(Seconds(built.pairs))) == ValuesInMembers(members)
    decreases members, 1, |members|
  {
    hide Build, Acceptable, MembersFaithful, Faithful, ValuesInMembers, N.SizeOfSeq;
    if members == [] {
      NoMembers(p);
    } else {
      var n := |members| - 1;
      MembersAreExact(p, holds, members[..n]);
      BuildIsExact(p, holds, members[n].value);
      var before, last := BuildMembers(p, holds, members[..n]), Build(p, holds, members[n].value);
      if before.Members? && last.Built? {
        OneMoreMember(p, members, before.pairs, last.json);
      }
    }
  }

  lemma NoMembers(p: Policy)
    ensures MembersFaithful(p, [], []) && N.SizeOfSeq(N.Sizes(Seconds([]))) == ValuesInMembers([])
  {
    N.NothingPending();
    assert Seconds([]) == [];
  }

  lemma {:induction false} OneMoreMember(p: Policy, members: seq<Named<Raw>>, pairs: seq<Named<Json>>, json: Json)
    requires members != [] && Faithful(p, members[|members| - 1].value, json)
    requires MembersFaithful(p, members[..|members| - 1], pairs)
    requires N.SizeOfSeq(N.Sizes(Seconds(pairs))) == ValuesInMembers(members[..|members| - 1])
    ensures
      var more := pairs + [Named(members[|members| - 1].name, json)];
      MembersFaithful(p, members, more) && N.SizeOfSeq(N.Sizes(Seconds(more))) == ValuesInMembers(members)
  {
    hide Faithful, N.SizeOfSeq, ValuesIn;
    var n := |members| - 1;
    assert Seconds(pairs + [Named(members[n].name, json)]) == Seconds(pairs) + [json];
    N.Popped(Seconds(pairs), json);
    SizeOfFaithful(p, members[n].value, json);
  }

  /** With distinct keys each member is found under its own key. */
  lemma {:induction false} FieldOfMember(pairs: seq<Named<Json>>, i: nat)
    requires i < |pairs| && NoDuplicates(Names(pairs))
    ensures pairs[i].name in FieldsOf(pairs) && FieldsOf(pairs)[pairs[i].name] == pairs[i].value
    decreases |pairs|
  {
    hide NoDuplicates;
    var n := |pairs| - 1;
    if i < n {
      EarlierNames(pairs, i);
      FieldOfMember(pairs[..n], i);
      assert pairs[..n][i] == pairs[i];
    }
  }

  lemma EarlierNames(pairs: seq<Named<Json>>, i: nat)
    requires i < |pairs| - 1 && NoDuplicates(Names(pairs))
    ensures NoDuplicates(Names(pairs[..|pairs| - 1])) && pairs[i].name != pairs[|pairs| - 1].name
  {
    assert forall k :: 0 <= k < |pairs| - 1 ==> Names(pairs[..|pairs| - 1])[k] == Names(pairs)[k];
    assert Names(pairs)[i] != Names(pairs)[|pairs| - 1];
  }

  lemma FieldsAreMembers(pairs: seq<Named<Json>>)
    requires NoDuplicates(Names(pairs))
    ensures N.Values(Names(pairs), FieldsOf(pairs)) == Seconds(pairs)
  {
    hide FieldsOf, NoDuplicates;
    var values := N.Values(Names(pairs), FieldsOf(pairs));
    forall i | 0 <= i < |pairs| ensures values[i] == Seconds(pairs)[i] {
      FieldOfMember(pairs, i);
    }
  }

  lemma ObjectIsExact(p: Policy, holds: JsonNumber -> bool, members: seq<Named<Raw>>)
    requires BuildMembers(p, holds, members).Members? <==>
               forall i :: 0 <= i < |members| ==> Acceptable(p, holds, members[i].value)
    requires
      var built := BuildMembers(p, holds, members);
      built.Members? ==>
        && MembersFaithful(p, members, built.pairs)
        && N.SizeOfSeq(N.Sizes(Seconds(built.pairs))) == ValuesInMembers(members)
    ensures Build(p, holds, RawObject(members)).Built? <==> Acceptable(p, holds, RawObject(members))
    ensures
      var built := Build(p, holds, RawObject(members));
      built.Built? ==> Faithful(p, RawObject(members), built.json)
  {
    hide BuildMembers, N.Size, Faithful, NoDuplicates, WellFormed, NumbersWithin, Denotes;
    var built := BuildMembers(p, holds, members);
    if built.Members? {
      assert Names(built.pairs) == Names(members);
      if NoDuplicates(Names(members)) {
        ObjectIsFaithful(p, members, built.pairs);
      }
    }
  }

  lemma ObjectIsFaithful(p: Policy, members: seq<Named<Raw>>, pairs: seq<Named<Json>>)
    requires MembersFaithful(p, members, pairs) && NoDuplicates(Names(members)) && Names(pairs) == Names(members)
    requires N.SizeOfSeq(N.Sizes(Seconds(pairs))) == ValuesInMembers(members)
    ensures Faithful(p, RawObject(members), Obj(Names(pairs), FieldsOf(pairs)))
  {
    hide N.Size, NoDuplicates, Faithful, FaithfulMember, N.SizeOfSeq, FieldsOf, ValuesIn, ValuesInMembers;
    ObjectSize(members, pairs);
    forall i | 0 <= i < |members|
      ensures members[i].name in FieldsOf(pairs) && FaithfulMember(p, members[i].value, FieldsOf(pairs)[members[i].name])
    {
      assert pairs[i].name == members[i].name;
      FieldOfMember(pairs, i);
      FaithfulParts(p, members[i].value, pairs[i].value);
    }
    ObjectFits(p, members, Names(pairs), FieldsOf(pairs));
  }

  lemma ObjectSize(members: seq<Named<Raw>>, pairs: seq<Named<Json>>)
    requires NoDuplicates(Names(pairs)) && N.SizeOfSeq(N.Sizes(Seconds(pairs))) == ValuesInMembers(members)
    ensures N.Size(Obj(Names(pairs), FieldsOf(pairs))) == ValuesIn(RawObject(members))
  {
    hide N.Size, NoDuplicates, N.SizeOfSeq, FieldsOf, ValuesInMembers;
    var order, fields := Names(pairs), FieldsOf(pairs);
    FieldsAreMembers(pairs);
    N.SizeOfObject(order, fields);
    N.SizeOfValues(order, fields);
  }

  /** Faithful but for the size. */
  ghost predicate FaithfulMember(p: Policy, raw: Raw, json: Json)
  {
    WellFormed(json) && NumbersWithin(json, p.limits) && Denotes(raw, json)
  }

  lemma FaithfulParts(p: Policy, raw: Raw, json: Json)
    requires Faithful(p, raw, json)
    ensures FaithfulMember(p, raw, json)
  {
  }

  lemma ObjectFits(p: Policy, members: seq<Named<Raw>>, order: seq<string>, fields: map<string, Json>)
    requires order == Names(members) && NoDuplicates(order) && forall k :: k in order <==> k in fields
    requires forall i :: 0 <= i < |members| ==>
               members[i].name in fields && FaithfulMember(p, members[i].value, fields[members[i].name])
    requires N.Size(Obj(order, fields)) == ValuesIn(RawObject(members))
    ensures Faithful(p, RawObject(members), Obj(order, fields))
  {
    hide N.Size, NoDuplicates, ValuesIn;
    forall k | k in fields ensures WellFormed(fields[k]) && NumbersWithin(fields[k], p.limits) {
      var i :| 0 <= i < |order| && order[i] == k;
      assert FaithfulMember(p, members[i].value, fields[members[i].name]);
    }
    assert Denotes(RawObject(members), Obj(order, fields)) by {
      forall i | 0 <= i < |members| ensures Denotes(members[i].value, fields[members[i].name]) {
        assert FaithfulMember(p, members[i].value, fields[members[i].name]);
      }
    }
  }

  // ----- the whole parser -----

  /** `_parse`: the decoder, the depth, the reader with its hooks, and the node count. */
  ghost function Parse(p: Policy, reader: Reader, body: Bytes): Parsed
  {
    match reader.decode(body)
    case None => Unparsable("json_encoding_invalid")
    case Some(text) =>
      if S.Run(S.BEGIN, text).peak > p.maxDepth then Unparsable("json_depth_limit")
      else
        var found := reader.loads(text);
        match Build(p, reader.holds, found.value)
        case Refused(reason) => Unparsable(reason)
        case Built(json) =>
          if found.trailing then Unparsable("json_parse_error")
          else if N.Size(json) > p.maxNodes then Unparsable("json_node_limit")
          else Document(json)
  }

  /** Every document that is returned can be compared, and is within the node limit. */
  lemma ParsedIsComparable(p: Policy, reader: Reader, body: Bytes)
    requires p.limits.digits >= 1 && Parse(p, reader, body).Document?
    ensures Agreement.Comparable(p, Parse(p, reader, body).json) && N.Size(Parse(p, reader, body).json) <= p.maxNodes
  {
    hide Build, N.Size, WellFormed, NumbersWithin, S.Run, Denotes;
    BuildIsExact(p, reader.holds, reader.loads(reader.decode(body).value).value);
  }

  /** What a reader should find in a grammatical text; how it reads the pieces of a string is left open. */
  function RawOf(t: S.Text, unescape: seq<S.Piece> -> string): Raw
    requires S.Grammatical(t)
  {
    match t
    case Null => RawNull
    case True => RawBool(true)
    case False => RawBool(false)
    case Num(n) => RawNumber(n)
    case Str(body) => RawString(unescape(body))
    case Arr(_, items) =>
      RawArray(seq(|items|, i requires 0 <= i < |items| =>
        assert S.ItemOk(items[i]);
        RawOf(items[i].value, unescape)))
    case Obj(_, members) =>
      RawObject(seq(|members|, i requires 0 <= i < |members| =>
        assert S.MemberOk(members[i]) && S.ItemOk(members[i].item);
        Named(unescape(members[i].name), RawOf(members[i].item.value, unescape))))
  }

  /**
   A body that is a grammatical JSON text has a document exactly when the text nests no deeper than the
   limit, its numbers and keys are acceptable, and it writes no more values than the limit; the document
   is what the text says.
   */
  lemma ParseIsExact(p: Policy, reader: Reader, body: Bytes, x: S.Item, unescape: seq<S.Piece> -> string)
    requires S.ItemOk(x) && reader.decode(body) == Some(S.WriteItem(x))
    requires reader.loads(S.WriteItem(x)) == Found(RawOf(x.value, unescape), false)
    ensures
      var (r, raw) := (Parse(p, reader, body), RawOf(x.value, unescape));
      && (r.Document? <==>
            S.Height(x.value) <= p.maxDepth && Acceptable(p, reader.holds, raw) && ValuesIn(raw) <= p.maxNodes)
      && (r.Document? ==> Denotes(raw, r.json))
      && (S.Height(x.value) > p.maxDepth ==> r == Unparsable("json_depth_limit"))
      && (S.Height(x.value) <= p.maxDepth && Acceptable(p, reader.holds, raw) && ValuesIn(raw) > p.maxNodes ==>
            r == Unparsable("json_node_limit"))
  {
    hide Build, N.Size, WellFormed, NumbersWithin, S.Run, Denotes, Acceptable, ValuesIn, RawOf, S.WriteItem, S.Height;
    S.ScannerMeasuresNesting(x);
    BuildIsExact(p, reader.holds, RawOf(x.value, unescape));
  }

  /** `object_pairs`: the loop that fills a dictionary and stops at a key that is already there. */
  method ObjectPairs(pairs: seq<Named<Json>>) returns (r: Built)
    ensures r == MakeObject(pairs)
  {
    var order: seq<string>, fields: map<string, Json> := [], map[];
    for i := 0 to |pairs|
      invariant order == Names(pairs[..i]) && fields == FieldsOf(pairs[..i]) && NoDuplicates(order)
    {
      var Named(key, value) := pairs[i];
      assert pairs[..i + 1][..i] == pairs[..i];
      assert Names(pairs[..i + 1]) == order + [key];
      if key in fields {
        Twice(pairs, i);
        return Refused("json_duplicate_key");
      }
      order, fields := order + [key], fields[key := value];
    }
    assert pairs[..|pairs|] == pairs;
    return Built(Obj(order, fields));
  }

  lemma Twice(pairs: seq<Named<Json>>, n: nat)
    requires n < |pairs| && pairs[n].name in Names(pairs[..n])
    ensures !NoDuplicates(Names(pairs))
  {
    var i :| 0 <= i < n && Names(pairs[..n])[i] == pairs[n].name;
    assert Names(pairs)[i] == Names(pairs)[n];
  }

  method ParseBody(p: Policy, reader: Reader, body: Bytes) returns (r: Parsed)
    ensures r == Parse(p, reader, body)
  {
    hide Build, N.Size, S.Run, Faithful;
    var text := reader.decode(body);
    if text.None? {
      return Unparsable("json_encoding_invalid");
    }
    var shallow := S.ScanDepth(text.value, p.maxDepth);
    if !shallow {
      return Unparsable("json_depth_limit");
    }
    var found := reader.loads(text.value);
    var built := Build(p, reader.holds, found.value);
    if built.Refused? {
      return Unparsable(built.reason);
    }
    if found.trailing {
      return Unparsable("json_parse_error");
    }
    BuiltIsWellFormed(p, reader.holds, found.value);
    var few := N.CountNodes(built.json, p.maxNodes);
    return if few then Document(built.json) else Unparsable("json_node_limit");
  }

  lemma BuiltIsWellFormed(p: Policy, holds: JsonNumber -> bool, raw: Raw)
    requires Build(p, holds, raw).Built?
    ensures WellFormed(Build(p, holds, raw).json)
  {
    hide Build, WellFormed;
    BuildIsExact(p, holds, raw);
  }
}
